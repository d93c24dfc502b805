/** The history of completed timeboxes kept by the claudia and cursor timers:
    `[newEntry, ...history].slice(0, 5)`, newest first, at most five entries. */
module HistoryLog {

  const Capacity: nat := 5

  function Min(a: nat, b: nat): nat {
    if a <= b then a else b
  }

  /** The history after one completion: the new entry in front, then the old
      entries in their order, cut to the first `Capacity`. */
  function Prepend<T>(entry: T, log: seq<T>): (r: seq<T>)
    ensures |r| == Min(|log| + 1, Capacity) && |r| <= Capacity
    ensures r[0] == entry
    ensures forall i :: 1 <= i < |r| ==> r[i] == log[i - 1]
  {
    ([entry] + log)[..Min(|log| + 1, Capacity)]
  }

  /** A full history loses exactly its oldest entry; a shorter one loses nothing. */
  lemma PrependEvicts<T>(entry: T, log: seq<T>)
    ensures |log| < Capacity ==> Prepend(entry, log) == [entry] + log
    ensures |log| == Capacity ==> Prepend(entry, log) == [entry] + log[..Capacity - 1]
  {
    if |log| == Capacity {
      assert Prepend(entry, log) == [entry] + log[..Capacity - 1];
    }
  }

  /** The entries of `es`, taken in completion order, prepended one by one. */
  function PrependAll<T>(es: seq<T>, log: seq<T>): seq<T>
  {
    if es == [] then log else PrependAll(es[1..], Prepend(es[0], log))
  }

  function Reversed<T>(s: seq<T>): (r: seq<T>)
    ensures |r| == |s|
    ensures forall i :: 0 <= i < |s| ==> r[i] == s[|s| - 1 - i]
  {
    if s == [] then [] else Reversed(s[1..]) + [s[0]]
  }

  /** Cutting the tail of a concatenation before cutting the whole changes nothing,
      as long as the first cut keeps everything the second one keeps. */
  lemma CutTail<T>(a: seq<T>, b: seq<T>, m: nat, k: nat)
    requires m <= |b| && k <= |a| + m
    ensures (a + b[..m])[..k] == (a + b)[..k]
  {
  }

  /** After any number of completions the history holds the most recent entries,
      newest first, followed by the older ones, at most `Capacity` of them in all:
      the oldest are the ones evicted. (A history loaded from storage may be longer
      than `Capacity`; it is cut at the first completion.) */
  lemma {:induction false} PrependAllKeepsNewest<T>(es: seq<T>, log: seq<T>)
    requires es != [] || |log| <= Capacity
    ensures PrependAll(es, log) == (Reversed(es) + log)[..Min(|es| + |log|, Capacity)]
  {
    if es == [] {
      assert Reversed(es) + log == log;
    } else {
      var p := Prepend(es[0], log);
      PrependAllKeepsNewest(es[1..], p);
      var a := Reversed(es[1..]);
      assert Reversed(es) == a + [es[0]];
      assert p == ([es[0]] + log)[..Min(|log| + 1, Capacity)];
      CutTail(a, [es[0]] + log, Min(|log| + 1, Capacity), Min(|es| - 1 + |p|, Capacity));
      assert a + ([es[0]] + log) == Reversed(es) + log;
    }
  }
}
