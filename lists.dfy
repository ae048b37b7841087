/** Sequence facts the listing needs: joining parts end to end, and counting occurrences. */
module Lists {

  /** The parts joined end to end, in order. */
  function Concat<T>(parts: seq<seq<T>>): seq<T> {
    if parts == [] then [] else Concat(parts[..|parts| - 1]) + parts[|parts| - 1]
  }

  lemma {:induction false} ConcatAppend<T>(a: seq<seq<T>>, b: seq<seq<T>>)
    ensures Concat(a + b) == Concat(a) + Concat(b)
    decreases |b|
  {
    if b == [] {
      assert a + b == a;
    } else {
      var b', last := b[..|b| - 1], b[|b| - 1];
      assert (a + b)[..|a + b| - 1] == a + b' && (a + b)[|a + b| - 1] == last;
      ConcatAppend(a, b');
    }
  }

  lemma ConcatSingleton<T>(part: seq<T>)
    ensures Concat([part]) == part
  {
    assert [part][..0] == [];
  }

  /** Joining the parts is joining a prefix of them, then the rest. */
  lemma ConcatSplit<T>(parts: seq<seq<T>>, k: nat)
    requires k <= |parts|
    ensures Concat(parts) == Concat(parts[..k]) + Concat(parts[k..])
  {
    assert parts == parts[..k] + parts[k..];
    ConcatAppend(parts[..k], parts[k..]);
  }

  /** Every part stands between the parts before it and the parts after it. */
  lemma ConcatInPlace<T>(parts: seq<seq<T>>, i: nat)
    requires i < |parts|
    ensures Concat(parts) == Concat(parts[..i]) + parts[i] + Concat(parts[i + 1..])
  {
    ConcatSplit(parts, i + 1);
    var upTo := parts[..i + 1];
    assert upTo[..|upTo| - 1] == parts[..i] && upTo[|upTo| - 1] == parts[i];
  }

  /** Removing the element at i keeps the others in order and drops exactly that element. */
  lemma RemoveAt<T>(s: seq<T>, i: nat)
    requires i < |s|
    ensures var t := s[..i] + s[i + 1..];
      && |t| == |s| - 1
      && (forall j :: 0 <= j < i ==> t[j] == s[j])
      && (forall j :: i <= j < |t| ==> t[j] == s[j + 1])
      && multiset(t) + multiset{s[i]} == multiset(s)
  {
    assert s == s[..i] + [s[i]] + s[i + 1..];
  }

  /** How many times x occurs in s. */
  function Count<T(==)>(x: T, s: seq<T>): nat {
    if s == [] then 0 else Count(x, s[..|s| - 1]) + (if s[|s| - 1] == x then 1 else 0)
  }

  lemma {:induction false} CountAppend<T>(x: T, a: seq<T>, b: seq<T>)
    ensures Count(x, a + b) == Count(x, a) + Count(x, b)
    decreases |b|
  {
    if b == [] {
      assert a + b == a;
    } else {
      var b', last := b[..|b| - 1], b[|b| - 1];
      assert (a + b)[..|a + b| - 1] == a + b' && (a + b)[|a + b| - 1] == last;
      CountAppend(x, a, b');
    }
  }

  lemma {:induction false} CountAbsent<T>(x: T, s: seq<T>)
    requires x !in s
    ensures Count(x, s) == 0
    decreases |s|
  {
    if s != [] {
      CountAbsent(x, s[..|s| - 1]);
    }
  }

  /** Joining parts that each hold x once holds x once per part. */
  lemma {:induction false} CountConcat<T>(x: T, parts: seq<seq<T>>)
    requires forall i :: 0 <= i < |parts| ==> Count(x, parts[i]) == 1
    ensures Count(x, Concat(parts)) == |parts|
    decreases |parts|
  {
    if parts != [] {
      var init := parts[..|parts| - 1];
      CountConcat(x, init);
      CountAppend(x, Concat(init), parts[|parts| - 1]);
    }
  }
}
