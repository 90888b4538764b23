/**
 * Every bullet list of the game is stepped the same way: the loop walks a copy
 * of the list (`for b in bullets[:]`), moves each bullet in place and removes
 * it from the live list (`bullets.remove(b)`, by value) when it has left the
 * field. `Kept` is what that loop
 * leaves behind; `MovePrune` is the loop itself.
 */
module Pruning {

  /** The moved elements of `s` that `keep` accepts, in their original order. */
  function Kept<T>(s: seq<T>, move: T -> T, keep: T -> bool): (r: seq<T>)
    ensures |r| <= |s|
    ensures forall k :: 0 <= k < |r| ==> keep(r[k])
    decreases |s|
  {
    if s == [] then []
    else
      var rest := Kept(s[..|s| - 1], move, keep);
      var m := move(s[|s| - 1]);
      if keep(m) then rest + [m] else rest
  }

  /** The identity move, for loops that only remove. */
  function Stay<T>(x: T): T { x }

  /** One more element processed. */
  lemma KeptSnoc<T>(s: seq<T>, i: nat, move: T -> T, keep: T -> bool)
    requires i < |s|
    ensures Kept(s[..i + 1], move, keep)
            == if keep(move(s[i])) then Kept(s[..i], move, keep) + [move(s[i])] else Kept(s[..i], move, keep)
  {
    assert s[..i + 1][..i] == s[..i];
  }

  /** Survivors keep their order: stepping a concatenation steps each part. */
  lemma {:induction false} KeptAppend<T>(a: seq<T>, b: seq<T>, move: T -> T, keep: T -> bool)
    ensures Kept(a + b, move, keep) == Kept(a, move, keep) + Kept(b, move, keep)
    decreases |b|
  {
    if b == [] {
      assert a + b == a;
    } else {
      var b' := b[..|b| - 1];
      assert (a + b)[..|a + b| - 1] == a + b';
      KeptAppend(a, b', move, keep);
    }
  }

  /** An element survives iff it is the moved image of an input element that `keep` accepts. */
  lemma {:induction false} KeptMembers<T>(s: seq<T>, move: T -> T, keep: T -> bool, y: T)
    ensures y in Kept(s, move, keep) <==> exists i :: 0 <= i < |s| && y == move(s[i]) && keep(y)
    decreases |s|
  {
    if s != [] {
      var s' := s[..|s| - 1];
      KeptMembers(s', move, keep, y);
      if exists i :: 0 <= i < |s'| && y == move(s'[i]) && keep(y) {
        var i :| 0 <= i < |s'| && y == move(s'[i]) && keep(y);
        assert s[i] == s'[i];
      }
      if exists i :: 0 <= i < |s| && y == move(s[i]) && keep(y) {
        var i :| 0 <= i < |s| && y == move(s[i]) && keep(y);
        if i < |s| - 1 { assert s'[i] == s[i]; }
      }
    }
  }

  /** Nothing is removed iff every moved element is accepted. */
  lemma {:induction false} KeptAll<T>(s: seq<T>, move: T -> T, keep: T -> bool)
    ensures |Kept(s, move, keep)| == |s| <==> forall i :: 0 <= i < |s| ==> keep(move(s[i]))
    decreases |s|
  {
    if s != [] {
      var s' := s[..|s| - 1];
      KeptAll(s', move, keep);
      if forall i :: 0 <= i < |s| ==> keep(move(s[i])) {
        assert forall i :: 0 <= i < |s'| ==> keep(move(s'[i])) by {
          forall i | 0 <= i < |s'| ensures keep(move(s'[i])) { assert s'[i] == s[i]; }
        }
      }
      if |Kept(s, move, keep)| == |s| {
        assert keep(move(s[|s| - 1]));
        forall i | 0 <= i < |s| ensures keep(move(s[i])) {
          if i < |s| - 1 { assert s'[i] == s[i]; }
        }
      }
    }
  }

  /**
   * The in-place loop: walk a snapshot of the list, move the current element
   * where it stands and delete it when `keep` rejects it.
   */
  method MovePrune<T(==)>(s: seq<T>, move: T -> T, keep: T -> bool) returns (r: seq<T>)
    ensures r == Kept(s, move, keep)
  {
    r := s;
    var i := 0;
    while i < |s|
      invariant 0 <= i <= |s|
      invariant r == Kept(s[..i], move, keep) + s[i..]
    {
      r := MovePruneStep(s, i, r, move, keep);
      i := i + 1;
    }
    assert s[..|s|] == s;
  }

  /** One turn of that loop: the `i`-th element, found just after the survivors of the first `i`. */
  method MovePruneStep<T(==)>(s: seq<T>, i: nat, r: seq<T>, move: T -> T, keep: T -> bool) returns (r': seq<T>)
    requires i < |s| && r == Kept(s[..i], move, keep) + s[i..]
    ensures r' == Kept(s[..i + 1], move, keep) + s[i + 1..]
  {
    ghost var done := Kept(s[..i], move, keep);
    ghost var rest := s[i + 1..];
    assert r == done + [s[i]] + rest by {
      assert s[i..] == [s[i]] + rest;
    }
    var pos := |r| - (|s| - i);
    assert pos == |done|;
    var m := move(s[i]);
    Overwrite(done, s[i], m, rest);
    r' := r[pos := m];
    if !keep(m) {
      // `list.remove` deletes the first equal element; every survivor before
      // `pos` passed `keep` and `m` did not, so that element is at `pos`.
      assert m !in done;
      RemoveAt(done, m, rest);
      r' := Remove(r', m);
    }
    KeptSnoc(s, i, move, keep);
  }

  /** Overwriting the element between `pre` and `post`. */
  lemma Overwrite<T>(pre: seq<T>, a: T, b: T, post: seq<T>)
    ensures (pre + [a] + post)[|pre| := b] == pre + [b] + post
  {
  }

  /** `list.remove(x)`: deletes the first element equal to `x`, if any. */
  function Remove<T(==)>(s: seq<T>, x: T): (r: seq<T>)
    ensures x !in s ==> r == s
    ensures x in s ==> |r| == |s| - 1
    ensures forall y :: y in r ==> y in s
  {
    if s == [] then []
    else if s[0] == x then s[1..]
    else [s[0]] + Remove(s[1..], x)
  }

  /** Removing an element that occurs nowhere before a given position deletes exactly that position. */
  lemma {:induction false} RemoveAt<T>(pre: seq<T>, x: T, post: seq<T>)
    requires x !in pre
    ensures Remove(pre + [x] + post, x) == pre + post
    decreases |pre|
  {
    if pre == [] {
      assert pre + [x] + post == [x] + post;
    } else {
      var s := pre + [x] + post;
      assert Remove(s, x) == [pre[0]] + Remove(pre[1..] + [x] + post, x) by {
        assert s[0] == pre[0] != x;
        assert s[1..] == pre[1..] + [x] + post;
      }
      RemoveAt(pre[1..], x, post);
      assert pre + post == [pre[0]] + (pre[1..] + post) by {
        assert pre == [pre[0]] + pre[1..];
      }
    }
  }
}
