/** Facts about sequences, multisets and sets that several modules need. */
module Sequences {
  import opened Results

  lemma {:induction false} Uncons<T>(s: seq<T>)
    requires s != []
    ensures multiset(s) == multiset{s[0]} + multiset(s[1..])
    ensures multiset(s[1..]) == multiset(s) - multiset{s[0]}
  {
    assert s == [s[0]] + s[1..];
  }

  lemma {:induction false} SameLength<T>(a: seq<T>, b: seq<T>)
    requires multiset(a) == multiset(b)
    ensures |a| == |b|
  {
    assert |multiset(a)| == |a| && |multiset(b)| == |b|;
  }

  lemma {:induction false} SameRest<T>(a: seq<T>, b: seq<T>)
    requires multiset(a) == multiset(b) && a != [] && b != []
    requires a[0] == b[0]
    ensures multiset(a[1..]) == multiset(b[1..])
  {
    Uncons(a);
    Uncons(b);
  }

  lemma {:induction false} WithoutAt<T>(s: seq<T>, k: nat)
    requires k < |s|
    ensures multiset(s[..k] + s[k + 1..]) == multiset(s) - multiset{s[k]}
  {
    assert s == s[..k] + [s[k]] + s[k + 1..];
  }

  lemma {:induction false} RemoveAt<T>(s: seq<T>, item: T) returns (k: nat)
    requires item in multiset(s)
    ensures k < |s| && s[k] == item
    ensures multiset(s[..k] + s[k + 1..]) == multiset(s) - multiset{item}
  {
    k :| 0 <= k < |s| && s[k] == item;
    assert s == s[..k] + [s[k]] + s[k + 1..];
  }

  lemma {:induction false} SameElements<T>(a: seq<T>, b: seq<T>)
    requires multiset(a) == multiset(b)
    ensures forall x :: x in a <==> x in b
  {
    assert forall x :: x in a <==> x in multiset(a);
    assert forall x :: x in b <==> x in multiset(b);
  }

  lemma {:induction false} SubsetIsSmaller<T>(a: set<T>, b: set<T>)
    requires a <= b
    ensures |a| <= |b|
  {
    assert a + (b - a) == b;
  }

  /** The values picked from the entries of a log, in order. */
  function Picked<E, V>(log: seq<E>, pick: E -> Option<V>): seq<V> {
    if log == [] then []
    else
      var last := pick(log[|log| - 1]);
      Picked(log[..|log| - 1], pick) + (if last.Some? then [last.value] else [])
  }

  lemma {:induction false} PickedNothing<E, V>(pick: E -> Option<V>)
    ensures Picked([], pick) == []
  {
  }

  lemma {:induction false} PickedPush<E, V>(log: seq<E>, entry: E, pick: E -> Option<V>)
    ensures Picked(log + [entry], pick) == Picked(log, pick) + (if pick(entry).Some? then [pick(entry).value] else [])
  {
    assert (log + [entry])[..|log|] == log;
  }

  lemma {:induction false} PickedAppend<E, V>(a: seq<E>, b: seq<E>, pick: E -> Option<V>)
    ensures Picked(a + b, pick) == Picked(a, pick) + Picked(b, pick)
  {
    if b == [] {
      assert a + b == a;
    } else {
      PickedAppend(a, b[..|b| - 1], pick);
      assert (a + b)[..|a + b| - 1] == a + b[..|b| - 1];
    }
  }

  lemma {:induction false} PickedWithout<E, V>(log: seq<E>, k: nat, pick: E -> Option<V>)
    requires k < |log|
    ensures multiset(Picked(log, pick)) == multiset(Picked(log[..k] + log[k + 1..], pick))
            + multiset(Picked([log[k]], pick))
  {
    hide Picked;
    assert log == (log[..k] + [log[k]]) + log[k + 1..];
    PickedAppend(log[..k] + [log[k]], log[k + 1..], pick);
    PickedAppend(log[..k], [log[k]], pick);
    PickedAppend(log[..k], log[k + 1..], pick);
  }

  lemma {:induction false} PickedIgnoresOrder<E, V>(a: seq<E>, b: seq<E>, pick: E -> Option<V>)
    requires multiset(a) == multiset(b)
    ensures multiset(Picked(a, pick)) == multiset(Picked(b, pick))
    decreases |a|
  {
    hide Picked;
    SameLength(a, b);
    if a == [] {
      assert a == b;
    } else {
      var last := |a| - 1;
      assert a[last] in multiset(a);
      var k := RemoveAt(b, a[last]);
      WithoutAt(a, last);
      PickedIgnoresOrder(a[..last] + a[last + 1..], b[..k] + b[k + 1..], pick);
      PickedWithout(a, last, pick);
      PickedWithout(b, k, pick);
    }
  }

  lemma {:induction false} PickedIn<E(!new), V>(log: seq<E>, pick: E -> Option<V>, value: V)
    ensures value in Picked(log, pick) <==> exists e :: e in log && pick(e) == Some(value)
  {
    if log != [] {
      PickedIn(log[..|log| - 1], pick, value);
      assert log == log[..|log| - 1] + [log[|log| - 1]];
    }
  }
}
