/**
 * The list shapes the handlers share: `list.filter(x => x.id !== id)` and
 * `list.map(x => x.id === id ? f(x) : x)`, generic in the record and its key.
 */
module Lists {

  import opened Wrappers

  /** `r` keeps some of the elements of `s`, in the same relative order. */
  predicate IsSubsequence<T(==)>(r: seq<T>, s: seq<T>)
    decreases |s|
  {
    if |r| == 0 then true
    else if |s| == 0 then false
    else if r[0] == s[0] then IsSubsequence(r[1..], s[1..])
    else IsSubsequence(r, s[1..])
  }

  /** `s.filter(x => key(x) !== id)`. */
  function Without<T>(s: seq<T>, key: T -> string, id: string): (r: seq<T>)
    ensures |r| <= |s|
    decreases |s|
  {
    if |s| == 0 then []
    else if key(s[0]) == id then Without(s[1..], key, id)
    else [s[0]] + Without(s[1..], key, id)
  }

  /**
   * Removing by key drops exactly the elements with that key: none is left,
   * every other element keeps its number of occurrences, and the order is kept.
   */
  lemma {:induction false} WithoutSpec<T>(s: seq<T>, key: T -> string, id: string)
    ensures var r := Without(s, key, id);
      && (forall i :: 0 <= i < |r| ==> key(r[i]) != id)
      && (forall x :: key(x) != id ==> multiset(r)[x] == multiset(s)[x])
      && (forall x :: key(x) == id ==> multiset(r)[x] == 0)
      && IsSubsequence(r, s)
    decreases |s|
  {
    if |s| > 0 {
      WithoutSpec(s[1..], key, id);
      assert s == [s[0]] + s[1..];
      var rest := Without(s[1..], key, id);
      if key(s[0]) != id {
        assert ([s[0]] + rest)[1..] == rest;
      } else {
        SubsequenceOfTail(rest, s);
      }
    }
  }

  lemma {:induction false} SubsequenceOfTail<T>(r: seq<T>, s: seq<T>)
    requires |s| > 0 && IsSubsequence(r, s[1..])
    ensures IsSubsequence(r, s)
    decreases |s| + |r|, 1
  {
    if |r| > 0 && r[0] == s[0] {
      SubsequenceDropHead(r, s[1..]);
    }
  }

  lemma {:induction false} SubsequenceDropHead<T>(r: seq<T>, t: seq<T>)
    requires |r| > 0 && IsSubsequence(r, t)
    ensures IsSubsequence(r[1..], t)
    decreases |t| + |r|, 0
  {
    if r[0] != t[0] {
      SubsequenceDropHead(r, t[1..]);
    }
    SubsequenceOfTail(r[1..], t);
  }

  /** A subsequence stays one when an element is appended to the whole, or to both. */
  lemma {:induction false} SubsequenceExtend<T>(r: seq<T>, s: seq<T>, x: T)
    requires IsSubsequence(r, s)
    ensures IsSubsequence(r, s + [x]) && IsSubsequence(r + [x], s + [x])
    decreases |s|
  {
    if |s| == 0 {
      assert r + [x] == [x] && s + [x] == [x];
    } else {
      var t := s + [x];
      assert t[0] == s[0] && t[1..] == s[1..] + [x];
      if |r| == 0 {
        assert r + [x] == [x];
        if x != s[0] {
          SubsequenceExtend(r, s[1..], x);
        }
      } else {
        assert (r + [x])[0] == r[0] && (r + [x])[1..] == r[1..] + [x];
        if r[0] == s[0] {
          SubsequenceExtend(r[1..], s[1..], x);
        } else {
          SubsequenceExtend(r, s[1..], x);
        }
      }
    }
  }

  /** Removing a key that no element carries changes nothing. */
  lemma {:induction false} WithoutAbsent<T>(s: seq<T>, key: T -> string, id: string)
    requires forall i :: 0 <= i < |s| ==> key(s[i]) != id
    ensures Without(s, key, id) == s
    decreases |s|
  {
    if |s| > 0 {
      WithoutAbsent(s[1..], key, id);
      assert s == [s[0]] + s[1..];
    }
  }

  /** Removal works element by element: the parts of a concatenation are filtered separately. */
  lemma {:induction false} WithoutAppend<T>(a: seq<T>, b: seq<T>, key: T -> string, id: string)
    ensures Without(a + b, key, id) == Without(a, key, id) + Without(b, key, id)
    decreases |a|
  {
    if |a| == 0 {
      assert a + b == b;
    } else {
      var c := a + b;
      assert c[0] == a[0] && c[1..] == a[1..] + b;
      WithoutAppend(a[1..], b, key, id);
    }
  }

  /** `s.map(x => key(x) === id ? f(x) : x)`. */
  function UpdateWhere<T>(s: seq<T>, key: T -> string, id: string, f: T -> T): (r: seq<T>)
    ensures |r| == |s|
  {
    seq(|s|, i requires 0 <= i < |s| => if key(s[i]) == id then f(s[i]) else s[i])
  }

  /** Two updates agreeing on every element with the key give the same list. */
  lemma UpdateWhereSame<T>(s: seq<T>, key: T -> string, id: string, f: T -> T, g: T -> T)
    requires forall x :: key(x) == id ==> f(x) == g(x)
    ensures UpdateWhere(s, key, id, f) == UpdateWhere(s, key, id, g)
  {
  }

  /** A second update of the same key after one that keeps the key is one combined update. */
  lemma UpdateWhereTwice<T>(s: seq<T>, key: T -> string, id: string, f: T -> T, g: T -> T, h: T -> T)
    requires forall x :: key(x) == id ==> key(f(x)) == id && g(f(x)) == h(x)
    ensures UpdateWhere(UpdateWhere(s, key, id, f), key, id, g) == UpdateWhere(s, key, id, h)
  {
    var once := UpdateWhere(s, key, id, f);
    forall i | 0 <= i < |s|
      ensures UpdateWhere(once, key, id, g)[i] == UpdateWhere(s, key, id, h)[i]
    {
      if key(s[i]) == id {
        assert once[i] == f(s[i]);
      } else {
        assert once[i] == s[i];
      }
    }
  }

  /** `s.findIndex(x => key(x) === id)`: the first position with the key, or -1. */
  function IndexOf<T>(s: seq<T>, key: T -> string, id: string): (r: int)
    ensures -1 <= r < |s|
    ensures r >= 0 ==> key(s[r]) == id && forall j :: 0 <= j < r ==> key(s[j]) != id
    ensures r == -1 ==> forall j :: 0 <= j < |s| ==> key(s[j]) != id
    decreases |s|
  {
    if |s| == 0 then -1
    else if key(s[0]) == id then 0
    else
      var k := IndexOf(s[1..], key, id);
      if k == -1 then -1 else k + 1
  }

  /** `s.find(x => key(x) === id)`: the first element with the key. */
  function Find<T>(s: seq<T>, key: T -> string, id: string): (r: Option<T>)
    ensures r.Some? <==> IndexOf(s, key, id) >= 0
    ensures r.Some? ==> r.value == s[IndexOf(s, key, id)] && key(r.value) == id
  {
    var k := IndexOf(s, key, id);
    if k >= 0 then Some(s[k]) else None
  }

  /** `k` leading elements without the key survive the removal unchanged. */
  lemma {:induction false} WithoutKeepsPrefix<T>(s: seq<T>, key: T -> string, id: string, k: nat)
    requires k <= |s| && forall j :: 0 <= j < k ==> key(s[j]) != id
    ensures |Without(s, key, id)| >= k && Without(s, key, id)[..k] == s[..k]
    decreases k
  {
    if k > 0 {
      WithoutKeepsPrefix(s[1..], key, id, k - 1);
      assert key(s[0]) != id;
    }
  }

  /** `copy.splice(i, 1)`: the list without its element at `i`. */
  function Remove<T>(s: seq<T>, i: nat): (r: seq<T>)
    requires i < |s|
    ensures |r| == |s| - 1
  {
    s[..i] + s[i + 1..]
  }

  /** `copy.splice(i, 0, x)`: the list with `x` inserted before position `i`. */
  function Insert<T>(s: seq<T>, i: nat, x: T): (r: seq<T>)
    requires i <= |s|
    ensures |r| == |s| + 1
  {
    s[..i] + [x] + s[i..]
  }

  /** The drag-and-drop move: take the element at `from` out and put it back at `to`. */
  function Move<T>(s: seq<T>, from: nat, to: nat): (r: seq<T>)
    requires from < |s| && to < |s|
    ensures |r| == |s|
  {
    Insert(Remove(s, from), to, s[from])
  }

  /**
   * Where every element lands: the moved one at `to`, the ones between the two
   * positions shifted by one towards `from`, and all others in place.
   */
  lemma MoveAt<T>(s: seq<T>, from: nat, to: nat)
    requires from < |s| && to < |s|
    ensures var r := Move(s, from, to);
      && r[to] == s[from]
      && (forall i :: 0 <= i < |s| && i < from && i < to ==> r[i] == s[i])
      && (forall i :: 0 <= i < |s| && i > from && i > to ==> r[i] == s[i])
      && (forall i :: from <= i < to ==> r[i] == s[i + 1])
      && (forall i :: to < i <= from ==> r[i] == s[i - 1])
  {
  }

  /** A move is a permutation. */
  lemma MovePermutes<T>(s: seq<T>, from: nat, to: nat)
    requires from < |s| && to < |s|
    ensures multiset(Move(s, from, to)) == multiset(s)
  {
    assert s == s[..from] + [s[from]] + s[from + 1..];
    var rest := Remove(s, from);
    calc {
      multiset(Move(s, from, to));
      multiset(rest[..to]) + multiset([s[from]]) + multiset(rest[to..]);
      { assert rest == rest[..to] + rest[to..]; }
      multiset(rest) + multiset([s[from]]);
      multiset(s[..from]) + multiset(s[from + 1..]) + multiset([s[from]]);
      multiset(s);
    }
  }

  /** Moving back from `to` to `from` undoes the move. */
  lemma MoveBack<T>(s: seq<T>, from: nat, to: nat)
    requires from < |s| && to < |s|
    ensures Move(Move(s, from, to), to, from) == s
  {
    var r := Move(s, from, to);
    assert Remove(r, to) == Remove(s, from);
  }

  /** `a.splice(from, 1)` followed by `a.splice(to, 0, moved)` on an array: the elements in between shift by one. */
  method MoveWithin<T>(a: array<T>, from: nat, to: nat)
    requires from < a.Length && to < a.Length
    modifies a
    ensures a[..] == Move(old(a[..]), from, to)
  {
    ghost var s := a[..];
    var moved := a[from];
    if from < to {
      var k := from;
      while k < to
        invariant from <= k <= to
        invariant forall i :: 0 <= i < from ==> a[i] == s[i]
        invariant forall i :: from <= i < k ==> a[i] == s[i + 1]
        invariant forall i :: k <= i < a.Length ==> a[i] == s[i]
      {
        a[k] := a[k + 1];
        k := k + 1;
      }
    } else {
      var k := from;
      while k > to
        invariant to <= k <= from
        invariant forall i :: 0 <= i <= k ==> a[i] == s[i]
        invariant forall i :: k < i <= from ==> a[i] == s[i - 1]
        invariant forall i :: from < i < a.Length ==> a[i] == s[i]
      {
        a[k] := a[k - 1];
        k := k - 1;
      }
    }
    a[to] := moved;
    MoveAt(s, from, to);
    assert a[..] == Move(s, from, to);
  }
}
