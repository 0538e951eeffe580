/** Buckets of events by destination, and the key that names a bucket. */
module Buckets {
  import opened Types

  type Buckets = map<string, seq<Event>>

  /** The key of an event's bucket: its three coordinates joined by underscores. */
  function KeyOf(e: Event): string
  {
    e.apiHost + "_" + e.apiKey + "_" + e.dataset
  }

  predicate SameTarget(a: Event, b: Event)
  {
    a.apiHost == b.apiHost && a.apiKey == b.apiKey && a.dataset == b.dataset
  }

  predicate Plain(s: string) { '_' !in s }

  function Get(b: Buckets, k: string): seq<Event>
  {
    if k in b then b[k] else []
  }

  /** Appends one event to the bucket of its key. */
  function Put(b: Buckets, e: Event): Buckets
  {
    b[KeyOf(e) := Get(b, KeyOf(e)) + [e]]
  }

  function PutAll(b: Buckets, es: seq<Event>): Buckets
  {
    if es == [] then b else Put(PutAll(b, es[..|es| - 1]), es[|es| - 1])
  }

  /** The events of one key, in order. */
  function OfKey(es: seq<Event>, k: string): seq<Event>
  {
    if es == [] then []
    else
      var n := |es| - 1;
      OfKey(es[..n], k) + (if KeyOf(es[n]) == k then [es[n]] else [])
  }

  predicate AllOfKey(es: seq<Event>, k: string)
  {
    forall i :: 0 <= i < |es| ==> KeyOf(es[i]) == k
  }

  /** Every bucket holds only events of its own key, and is not empty. */
  predicate Keyed(b: Buckets)
  {
    forall k :: k in b ==> b[k] != [] && AllOfKey(b[k], k)
  }

  /** Filling buckets sorts the events by key and keeps their order. */
  lemma {:induction false} PutAllSorts(b: Buckets, es: seq<Event>, k: string)
    ensures Get(PutAll(b, es), k) == Get(b, k) + OfKey(es, k)
    ensures k in PutAll(b, es) <==> k in b || OfKey(es, k) != []
  {
    if es != [] {
      PutAllSorts(b, es[..|es| - 1], k);
    }
  }

  lemma {:induction false} OfKeyKeeps(es: seq<Event>, k: string)
    ensures AllOfKey(OfKey(es, k), k)
    ensures AllOfKey(es, k) ==> OfKey(es, k) == es
  {
    if es != [] {
      var n := |es| - 1;
      OfKeyKeeps(es[..n], k);
      assert es == es[..n] + [es[n]];
      if AllOfKey(es, k) {
        assert AllOfKey(es[..n], k);
      }
    }
  }

  lemma {:induction false} OfOtherKey(es: seq<Event>, k: string, k': string)
    requires AllOfKey(es, k) && k != k'
    ensures OfKey(es, k') == []
  {
    if es != [] {
      OfOtherKey(es[..|es| - 1], k, k');
    }
  }

  /** Events of one key touch only the bucket of that key. */
  lemma {:induction false} PutAllOfKey(b: Buckets, es: seq<Event>, k: string)
    requires AllOfKey(es, k)
    ensures PutAll(b, es) == if es == [] then b else b[k := Get(b, k) + es]
  {
    if es != [] {
      var n := |es| - 1;
      PutAllOfKey(b, es[..n], k);
      assert Get(PutAll(b, es[..n]), k) == Get(b, k) + es[..n];
      assert Get(b, k) + es[..n] + [es[n]] == Get(b, k) + es;
    }
  }

  // ---- when the key tells targets apart ----

  lemma SplitAtFirst(a: string, x: string, b: string, y: string)
    requires Plain(a) && Plain(b) && a + "_" + x == b + "_" + y
    ensures a == b && x == y
  {
    var s, t := a + "_" + x, b + "_" + y;
    assert s[|a|] == '_' && forall i :: 0 <= i < |a| ==> s[i] == a[i] != '_';
    assert t[|b|] == '_' && forall i :: 0 <= i < |b| ==> t[i] == b[i] != '_';
    assert s[..|a|] == a && t[..|b|] == b;
    assert s[|a| + 1..] == x && t[|b| + 1..] == y;
  }

  lemma SplitAtLast(x: string, a: string, y: string, b: string)
    requires Plain(a) && Plain(b) && x + "_" + a == y + "_" + b
    ensures a == b && x == y
  {
    var s, t := x + "_" + a, y + "_" + b;
    assert s[|x|] == '_' && forall i :: |x| < i < |s| ==> s[i] == a[i - |x| - 1] != '_';
    assert t[|y|] == '_' && forall i :: |y| < i < |t| ==> t[i] == b[i - |y| - 1] != '_';
    assert s[..|x|] == x && t[..|y|] == y;
    assert s[|x| + 1..] == a && t[|y| + 1..] == b;
  }

  /** Which two of the three coordinates are known to be free of underscores. */
  datatype PlainPair = HostAndKey | HostAndDataset | KeyAndDataset

  predicate PlainIn(p: PlainPair, e: Event)
  {
    match p
    case HostAndKey => Plain(e.apiHost) && Plain(e.apiKey)
    case HostAndDataset => Plain(e.apiHost) && Plain(e.dataset)
    case KeyAndDataset => Plain(e.apiKey) && Plain(e.dataset)
  }

  /** When the same two coordinates are free of underscores in both events, one
      bucket means one target. */
  lemma KeyTellsTargets(p: PlainPair, a: Event, b: Event)
    requires PlainIn(p, a) && PlainIn(p, b)
    ensures KeyOf(a) == KeyOf(b) <==> SameTarget(a, b)
  {
    if KeyOf(a) == KeyOf(b) {
      var lastA, lastB := a.apiKey + "_" + a.dataset, b.apiKey + "_" + b.dataset;
      var firstA, firstB := a.apiHost + "_" + a.apiKey, b.apiHost + "_" + b.apiKey;
      assert KeyOf(a) == a.apiHost + "_" + lastA && KeyOf(b) == b.apiHost + "_" + lastB;
      assert KeyOf(a) == firstA + "_" + a.dataset && KeyOf(b) == firstB + "_" + b.dataset;
      match p
      case HostAndKey =>
        SplitAtFirst(a.apiHost, lastA, b.apiHost, lastB);
        SplitAtFirst(a.apiKey, a.dataset, b.apiKey, b.dataset);
      case HostAndDataset =>
        SplitAtFirst(a.apiHost, lastA, b.apiHost, lastB);
        SplitAtLast(a.apiKey, a.dataset, b.apiKey, b.dataset);
      case KeyAndDataset =>
        SplitAtLast(firstA, a.dataset, firstB, b.dataset);
        SplitAtLast(a.apiHost, a.apiKey, b.apiHost, b.apiKey);
    }
  }

  /** In general, events of one bucket share their target exactly when their first
      two coordinates have the same lengths. */
  lemma SameTargetIff(a: Event, b: Event)
    requires KeyOf(a) == KeyOf(b)
    ensures SameTarget(a, b) <==> |a.apiHost| == |b.apiHost| && |a.apiKey| == |b.apiKey|
  {
    if |a.apiHost| == |b.apiHost| && |a.apiKey| == |b.apiKey| {
      var s, t := KeyOf(a), KeyOf(b);
      var i, j := |a.apiHost|, |a.apiHost| + 1 + |a.apiKey|;
      assert s[..i] == a.apiHost && t[..i] == b.apiHost;
      assert s[i + 1..j] == a.apiKey && t[i + 1..j] == b.apiKey;
      assert s[j + 1..] == a.dataset && t[j + 1..] == b.dataset;
    }
  }

  /** One coordinate free of underscores is not enough, whichever it is: two
      targets fall into one bucket. */
  lemma KeyCollisions()
    ensures exists a: Event, b: Event :: Plain(a.apiHost) && Plain(b.apiHost) && KeyOf(a) == KeyOf(b) && !SameTarget(a, b)
    ensures exists a: Event, b: Event :: Plain(a.apiKey) && Plain(b.apiKey) && KeyOf(a) == KeyOf(b) && !SameTarget(a, b)
    ensures exists a: Event, b: Event :: Plain(a.dataset) && Plain(b.dataset) && KeyOf(a) == KeyOf(b) && !SameTarget(a, b)
  {
    var a, b := Event("h", "k", "a_b", 0, 0), Event("h", "k_a", "b", 0, 0);
    assert KeyOf(a) == "h_k_a_b" == KeyOf(b) && !SameTarget(a, b);
    var c, d := Event("a_b", "c", "d", 0, 0), Event("a", "b", "c_d", 0, 0);
    assert KeyOf(c) == "a_b_c_d" == KeyOf(d) && !SameTarget(c, d);
    var e, f := Event("h_k", "a", "b", 0, 0), Event("h", "k_a", "b", 0, 0);
    assert KeyOf(e) == "h_k_a_b" == KeyOf(f) && !SameTarget(e, f);
  }
}
