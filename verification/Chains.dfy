/** The packages of Pipeline are numbers in a map, those of RequestParser objects with real links.  Here the
    one is shown to be a picture of the other, and to stay so when a text is parsed and when svr_http_final
    takes the first package off. */
module Chains {
  import opened Wrappers
  import opened RequestParser
  import P = Pipeline

  /** A pointer and a number name the same child, or none. */
  ghost predicate SameLink(chain: seq<Hpkg>, queue: seq<P.Id>, link: Hpkg?, id: Option<P.Id>) {
    && (link == null <==> id.None?)
    && (id.Some? ==> exists i :: 0 <= i < |chain| && i < |queue| && chain[i] == link && queue[i] == id.value)
  }

  /** Child i is package queue[i], with the same request and the same links. */
  ghost predicate Pictures(heap: map<P.Id, P.Package>, queue: seq<P.Id>, pk: Hpkg, chain: seq<Hpkg>)
    reads pk, chain
  {
    && |queue| == |chain| && 0 in heap && SameLink(chain, queue, pk.lcg, heap[0].lcg)
    && forall i :: 0 <= i < |chain| ==>
         && queue[i] in heap && heap[queue[i]].request == Some(chain[i].request)
         && chain[i].ppg == pk && heap[queue[i]].ppg == Some(0)
         && SameLink(chain, queue, chain[i].nsg, heap[queue[i]].nsg)
  }

  lemma ChainsPicture(heap: map<P.Id, P.Package>, queue: seq<P.Id>, pk: Hpkg, chain: seq<Hpkg>, requests: seq<Request>)
    requires Chained(pk, chain) && Carries(chain, requests)
    requires P.Chain(heap, queue) && P.Carries(heap, queue, requests)
    ensures Pictures(heap, queue, pk, chain)
  {
    forall i | 0 <= i < |chain|
      ensures queue[i] in heap && heap[queue[i]].request == Some(chain[i].request) && heap[queue[i]].ppg == Some(0)
      ensures SameLink(chain, queue, chain[i].nsg, heap[queue[i]].nsg)
    {
      assert P.Child(heap, queue, i);
    }
  }

  /** Parsing a text on the objects and on the numbers gives the same chain. */
  method ParseBoth(pk: Hpkg, buf: array<char>, nbytes: nat, ghost c: P.Conn)
    returns (fget: Hpkg?, ghost chain: seq<Hpkg>, ghost queue: seq<P.Id>)
    requires 0 < nbytes < buf.Length && Terminated(buf[..]) && pk.lcg == null
    requires P.Invariant(c) && c.pending[0].Parse?
    modifies pk
    ensures var requests := Scan(buf[..], nbytes - 1, 0);
      && c.pending[0].pk in c.heap && c.heap[c.pending[0].pk].lcg == None
      && P.After(P.ParseStep(c, 0, requests).log).Some?
      && queue == P.After(P.ParseStep(c, 0, requests).log).value.queue
      && Pictures(P.ParseStep(c, 0, requests).heap, queue, pk, chain)
      && Chained(pk, chain) && fget == if chain == [] then null else chain[0]
  {
    fget, chain := Parse(pk, buf, nbytes);
    ghost var requests := Scan(buf[..], nbytes - 1, 0);
    P.ParseInvariant(c, requests);
    ghost var v := P.ParseStep(c, 0, requests);
    queue := P.After(v.log).value.queue;
    ChainsPicture(v.heap, queue, pk, chain, requests);
  }

  /** So does taking the first package off. */
  method FinalBoth(pk: Hpkg, ghost chain: seq<Hpkg>, ghost c: P.Conn, ghost s: P.Serial) returns (fget: Hpkg?)
    requires chain != [] && chain[0] == pk && pk.ppg != null && pk.ppg !in chain && Chained(pk.ppg, chain)
    requires P.Simulates(c, s) && s.phase == P.Writing && Pictures(c.heap, s.queue, pk.ppg, chain)
    modifies pk.ppg
    ensures P.Live(c, c.pending[0].pk)
    ensures Chained(pk.ppg, chain[1..]) && Pictures(P.FinalStep(c, 0).heap, s.queue[1..], pk.ppg, chain[1..])
    ensures fget == if |chain| == 1 then null else chain[1]
    ensures P.FinalStep(c, 0).pending == [if |chain| == 1 then P.Read(0) else P.Fetch(s.queue[1])]
  {
    ghost var requests := seq(|chain|, i requires 0 <= i < |chain| reads chain => chain[i].request);
    fget := Final(pk, chain);
    P.FinalChain(c, s);
    P.AfterFinal(c, s, requests);
    ChainsPicture(P.FinalStep(c, 0).heap, s.queue[1..], pk.ppg, chain[1..], requests[1..]);
  }
}
