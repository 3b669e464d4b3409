/** `Array.prototype.filter` on sequences, with the facts the task list needs about it. */
module SeqFilter {

  /** The elements of `s` that satisfy `keep`, in their original order. */
  function Filter<T(!new)>(s: seq<T>, keep: T -> bool): (r: seq<T>)
    ensures |r| <= |s|
    ensures forall x :: x in r <==> x in s && keep(x)
  {
    if s == [] then []
    else
      assert s == [s[0]] + s[1..];
      if keep(s[0]) then [s[0]] + Filter(s[1..], keep)
      else Filter(s[1..], keep)
  }

  /** Filtering a sequence with a given first element. */
  lemma FilterCons<T(!new)>(x: T, s: seq<T>, keep: T -> bool)
    ensures Filter([x] + s, keep) == (if keep(x) then [x] else []) + Filter(s, keep)
  {
    assert ([x] + s)[0] == x && ([x] + s)[1..] == s;
  }

  /** Filtering distributes over concatenation, so it never reorders what it keeps. */
  lemma {:induction false} FilterConcat<T(!new)>(a: seq<T>, b: seq<T>, keep: T -> bool)
    ensures Filter(a + b, keep) == Filter(a, keep) + Filter(b, keep)
  {
    if a == [] {
      assert a + b == b;
    } else {
      var head, tail := a[0], a[1..];
      var kept := if keep(head) then [head] else [];
      assert a == [head] + tail;
      assert a + b == [head] + (tail + b);
      calc {
        Filter(a + b, keep);
        { FilterCons(head, tail + b, keep); }
        kept + Filter(tail + b, keep);
        { FilterConcat(tail, b, keep); }
        kept + (Filter(tail, keep) + Filter(b, keep));
        (kept + Filter(tail, keep)) + Filter(b, keep);
        { FilterCons(head, tail, keep); }
        Filter(a, keep) + Filter(b, keep);
      }
    }
  }

  /** Extending a prefix by one element extends its filtered image by that element exactly when it is kept. */
  lemma FilterPrefixStep<T(!new)>(s: seq<T>, i: nat, keep: T -> bool)
    requires i < |s|
    ensures Filter(s[..i + 1], keep) == Filter(s[..i], keep) + (if keep(s[i]) then [s[i]] else [])
  {
    assert s[..i + 1] == s[..i] + [s[i]];
    FilterConcat(s[..i], [s[i]], keep);
    assert Filter([s[i]], keep) == (if keep(s[i]) then [s[i]] else []) by {
      assert [s[i]][1..] == [];
    }
  }

  /** When every element is kept, the sequence comes back unchanged. */
  lemma {:induction false} FilterKeepsAll<T(!new)>(s: seq<T>, keep: T -> bool)
    requires forall x :: x in s ==> keep(x)
    ensures Filter(s, keep) == s
  {
    if s != [] {
      FilterKeepsAll(s[1..], keep);
    }
  }

  /** When no element is kept, the result is empty. */
  lemma {:induction false} FilterDropsAll<T(!new)>(s: seq<T>, keep: T -> bool)
    requires forall x :: x in s ==> !keep(x)
    ensures Filter(s, keep) == []
  {
    if s != [] {
      FilterDropsAll(s[1..], keep);
    }
  }

}
