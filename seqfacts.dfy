/**
 * Slicing facts stated over an arbitrary element type, where they are cheap
 * to prove, for use on sequences of strings, where they are not.
 */
module SeqFacts {

  lemma TakeOne<T>(t: seq<T>, a: nat)
    requires a < |t|
    ensures t[..a + 1] == t[..a] + [t[a]]
  {
  }

  lemma TakeTwo<T>(t: seq<T>, a: nat)
    requires a + 2 <= |t|
    ensures t[..a + 2] == t[..a] + [t[a], t[a + 1]]
  {
    assert t[..a + 2] == t[..a] + t[a..a + 2];
  }

  lemma TakeAll<T>(t: seq<T>)
    ensures t[..|t|] == t
  {
  }

  lemma TakeSplit<T>(t: seq<T>, a: nat, b: nat)
    requires a + b <= |t|
    ensures t[..a + b] == t[..a] + t[a..][..b]
  {
  }

  lemma InitOfSnoc<T>(a: seq<T>, x: T)
    ensures (a + [x])[..|a|] == a
  {
  }

  /** `Array.prototype.filter`: the entries `keep` accepts, in their order. */
  function Filter<T(!new)>(s: seq<T>, keep: T -> bool): (r: seq<T>)
    ensures |r| <= |s|
    ensures forall x :: x in r <==> x in s && keep(x)
  {
    if s == [] then []
    else Filter(s[..|s| - 1], keep) + (if keep(s[|s| - 1]) then [s[|s| - 1]] else [])
  }

  lemma FilterSnoc<T(!new)>(s: seq<T>, x: T, keep: T -> bool)
    ensures Filter(s + [x], keep) == Filter(s, keep) + (if keep(x) then [x] else [])
  {
    InitOfSnoc(s, x);
  }

  /** Filtering a concatenation filters each part: the kept entries stay in order. */
  lemma {:induction false} FilterConcat<T(!new)>(a: seq<T>, b: seq<T>, keep: T -> bool)
    ensures Filter(a + b, keep) == Filter(a, keep) + Filter(b, keep)
  {
    if b == [] {
      assert a + b == a;
    } else {
      var init, last := b[..|b| - 1], b[|b| - 1];
      assert a + b == (a + init) + [last];
      assert b == init + [last];
      FilterConcat(a, init, keep);
      FilterSnoc(a + init, last, keep);
      FilterSnoc(init, last, keep);
    }
  }
}
