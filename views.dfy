/**
  The container view's list of subviews, back to front, and the two UIKit
  operations the controller applies to it: `AddSubview` and
  `InsertSubviewBelow`. A view is identified by an integer id.
 */
module Views {
  type ViewId = int

  /** No view occurs twice among the subviews of one view. */
  predicate NoDuplicates(s: seq<ViewId>)
  {
    forall i, j | 0 <= i < j < |s| :: s[i] != s[j]
  }

  /** `s` without `v`, the others in their original order. */
  function Remove(s: seq<ViewId>, v: ViewId): (r: seq<ViewId>)
    ensures forall x :: x in r <==> x in s && x != v
    ensures |r| <= |s|
    ensures v !in s ==> r == s
    ensures NoDuplicates(s) ==> NoDuplicates(r)
    decreases |s|
  {
    if s == [] then []
    else
      var rest := Remove(s[1..], v);
      if s[0] == v then rest
      else
        NoDuplicatesSplit([s[0]], s[1..]);
        NoDuplicatesJoin([s[0]], rest);
        assert s == [s[0]] + s[1..];
        [s[0]] + rest
  }

  lemma NoDuplicatesSplit(a: seq<ViewId>, b: seq<ViewId>)
    ensures NoDuplicates(a + b) ==>
      NoDuplicates(a) && NoDuplicates(b) && forall x :: x in a ==> x !in b
  {
    if NoDuplicates(a + b) {
      forall i, j | 0 <= i < |a| && 0 <= j < |b| ensures a[i] != b[j] {
        assert (a + b)[i] == a[i] && (a + b)[|a| + j] == b[j];
      }
      forall i, j | 0 <= i < j < |b| ensures b[i] != b[j] {
        assert (a + b)[|a| + i] == b[i] && (a + b)[|a| + j] == b[j];
      }
      forall i, j | 0 <= i < j < |a| ensures a[i] != a[j] {
        assert (a + b)[i] == a[i] && (a + b)[j] == a[j];
      }
    }
  }

  lemma NoDuplicatesJoin(a: seq<ViewId>, b: seq<ViewId>)
    ensures NoDuplicates(a) && NoDuplicates(b) && (forall x :: x in a ==> x !in b) ==>
      NoDuplicates(a + b)
  {
    if NoDuplicates(a) && NoDuplicates(b) && (forall x :: x in a ==> x !in b) {
      forall i, j | 0 <= i < j < |a + b| ensures (a + b)[i] != (a + b)[j] {
        if j < |a| {
          assert a[i] != a[j];
        } else if i < |a| {
          assert a[i] in a && b[j - |a|] in b;
        } else {
          assert b[i - |a|] != b[j - |a|];
        }
      }
    }
  }

  lemma {:induction false} RemoveAppend(a: seq<ViewId>, b: seq<ViewId>, v: ViewId)
    ensures Remove(a + b, v) == Remove(a, v) + Remove(b, v)
    decreases |a|
  {
    if a == [] {
      assert a + b == b;
    } else {
      assert (a + b)[1..] == a[1..] + b;
      RemoveAppend(a[1..], b, v);
    }
  }

  /** Position of `v` in `s`: its first occurrence. */
  function IndexOf(s: seq<ViewId>, v: ViewId): (i: nat)
    requires v in s
    ensures i < |s| && s[i] == v && v !in s[..i]
    decreases |s|
  {
    if s[0] == v then 0
    else
      var k := IndexOf(s[1..], v);
      assert s[..k + 1] == [s[0]] + s[1..][..k];
      k + 1
  }

  /**
    UIKit's `addSubview`: `v` becomes the front-most subview; a view that
    already was a subview is moved to the front rather than added twice.
   */
  function AddSubview(s: seq<ViewId>, v: ViewId): (r: seq<ViewId>)
    ensures |r| > 0 && r[|r| - 1] == v
    ensures forall x :: x in r <==> x in s || x == v
    ensures v !in s ==> r == s + [v]
    ensures Remove(r, v) == Remove(s, v)
    ensures NoDuplicates(s) ==> NoDuplicates(r)
  {
    var t := Remove(s, v);
    RemoveAppend(t, [v], v);
    assert Remove([v], v) == [];
    t + [v]
  }

  /**
    UIKit's `insertSubview:belowSubview:`: `v` is placed immediately behind
    `sibling`, which must already be a subview. Inserting a view below
    itself leaves the list as it is.
   */
  function InsertSubviewBelow(s: seq<ViewId>, v: ViewId, sibling: ViewId): (r: seq<ViewId>)
    requires sibling in s
    ensures forall x :: x in r <==> x in s || x == v
    ensures v != sibling ==> exists k :: 0 <= k < |r| - 1 && r[k] == v && r[k + 1] == sibling
    ensures Remove(r, v) == Remove(s, v)
    ensures NoDuplicates(s) ==> NoDuplicates(r)
  {
    if v == sibling then s
    else
      var t := Remove(s, v);
      var i := IndexOf(t, sibling);
      InsertBefore(s, v, t, i);
      t[..i] + [v] + t[i..]
  }

  lemma InsertBefore(s: seq<ViewId>, v: ViewId, t: seq<ViewId>, i: nat)
    requires t == Remove(s, v) && i < |t|
    ensures var r := t[..i] + [v] + t[i..];
      (forall x :: x in r <==> x in s || x == v) &&
      r[i] == v && r[i + 1] == t[i] &&
      Remove(r, v) == Remove(s, v) &&
      (NoDuplicates(s) ==> NoDuplicates(r))
  {
    var r := t[..i] + [v] + t[i..];
    assert t == t[..i] + t[i..];
    RemoveAppend(t[..i] + [v], t[i..], v);
    RemoveAppend(t[..i], [v], v);
    assert Remove([v], v) == [];
    assert v !in t[..i] && v !in t[i..];
    if NoDuplicates(s) {
      NoDuplicatesSplit(t[..i], t[i..]);
      NoDuplicatesJoin(t[..i], [v]);
      NoDuplicatesJoin(t[..i] + [v], t[i..]);
    }
  }
}
