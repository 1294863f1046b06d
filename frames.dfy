/** Collecting the keyframed frames of an armature's action (get_list_frames). */
module Frames {
  import opened Host

  /** An F-curve of the action: its data path and the frame coordinate of each
      of its keyframe points. */
  datatype FCurve = FCurve(dataPath: string, keyframes: seq<real>)

  predicate StrictlyIncreasing(s: seq<real>) {
    forall i, j :: 0 <= i < j < |s| ==> s[i] < s[j]
  }

  predicate Sorted(s: seq<real>) {
    forall i, j :: 0 <= i < j < |s| ==> s[i] <= s[j]
  }

  ghost function Elements(s: seq<real>): set<real> {
    set f | f in s
  }

  /** The frames that carry a keyframe on one of the curves, whatever its data path. */
  ghost function KeyedFrames(curves: seq<FCurve>): set<real>
  {
    if curves == [] then {}
    else KeyedFrames(curves[..|curves| - 1]) + Elements(curves[|curves| - 1].keyframes)
  }

  lemma {:induction false} KeyedFramesMembership(curves: seq<FCurve>, f: real)
    ensures f in KeyedFrames(curves) <==> exists c :: c in curves && f in c.keyframes
  {
    if curves != [] {
      var init, last := curves[..|curves| - 1], curves[|curves| - 1];
      KeyedFramesMembership(init, f);
      assert curves == init + [last];
      if f in last.keyframes {
        assert last in curves;
      } else if f in KeyedFrames(init) {
        var c :| c in init && f in c.keyframes;
        assert c in curves;
      } else {
        forall c | c in curves ensures f !in c.keyframes {
          if c != last {
            assert c in init;
          }
        }
      }
    }
  }

  /** The two nested loops of get_list_frames: every keyframe's frame is appended
      unless the list already holds it. */
  method CollectFrames(curves: seq<FCurve>) returns (list: seq<real>)
    ensures Distinct(list)
    ensures forall f :: f in list <==> f in KeyedFrames(curves)
  {
    list := [];
    for i := 0 to |curves|
      invariant Distinct(list)
      invariant forall f :: f in list <==> f in KeyedFrames(curves[..i])
    {
      var points := curves[i].keyframes;
      for j := 0 to |points|
        invariant Distinct(list)
        invariant forall f :: f in list <==> f in KeyedFrames(curves[..i]) || f in points[..j]
      {
        var frame := points[j];
        if frame !in list {
          list := list + [frame];
        }
        assert points[..j + 1] == points[..j] + [frame];
      }
      assert curves[..i + 1][..i] == curves[..i];
      assert points[..|points|] == points;
    }
    assert curves[..|curves|] == curves;
  }

  /** Inserts x into a sorted sequence after the entries not greater than it. */
  method InsertSorted(s: seq<real>, x: real) returns (r: seq<real>)
    requires Sorted(s)
    ensures Sorted(r)
    ensures multiset(r) == multiset(s) + multiset{x}
    ensures StrictlyIncreasing(s) && x !in s ==> StrictlyIncreasing(r)
  {
    var k := 0;
    while k < |s| && s[k] <= x
      invariant 0 <= k <= |s|
      invariant forall m :: 0 <= m < k ==> s[m] <= x
    {
      k := k + 1;
    }
    r := s[..k] + [x] + s[k..];
    InsertionOrdered(s, k, x);
    assert s == s[..k] + s[k..];
  }

  lemma InsertionOrdered(s: seq<real>, k: nat, x: real)
    requires Sorted(s) && k <= |s|
    requires forall m :: 0 <= m < k ==> s[m] <= x
    requires k < |s| ==> x < s[k]
    ensures Sorted(s[..k] + [x] + s[k..])
    ensures StrictlyIncreasing(s) && x !in s ==> StrictlyIncreasing(s[..k] + [x] + s[k..])
  {
    var r := s[..k] + [x] + s[k..];
    assert forall i :: 0 <= i < k ==> r[i] == s[i];
    assert r[k] == x;
    assert forall i :: k < i < |r| ==> r[i] == s[i - 1];
    forall i, j | 0 <= i < j < |r| ensures r[i] <= r[j] {
      if j < k {
      } else if i < k && j == k {
      } else if i < k {
        assert s[i] <= s[j - 1];
      } else if i == k {
        assert s[k] <= s[j - 1];
      } else {
        assert s[i - 1] <= s[j - 1];
      }
    }
    if StrictlyIncreasing(s) && x !in s {
      forall i, j | 0 <= i < j < |r| ensures r[i] < r[j] {
        if j < k {
        } else if i < k && j == k {
          assert s[i] != x;
        } else if i < k {
          assert s[i] < s[j - 1];
        } else if i == k {
          assert s[k] <= s[j - 1];
        } else {
          assert s[i - 1] < s[j - 1];
        }
      }
    }
  }

  /** Python's sorted on a list of frames: an ordered permutation, strictly
      increasing when the list has no repeated frame. */
  method SortFrames(list: seq<real>) returns (sorted: seq<real>)
    ensures Sorted(sorted)
    ensures multiset(sorted) == multiset(list)
    ensures Distinct(list) ==> StrictlyIncreasing(sorted)
  {
    sorted := [];
    for i := 0 to |list|
      invariant Sorted(sorted)
      invariant multiset(sorted) == multiset(list[..i])
      invariant Distinct(list) ==> StrictlyIncreasing(sorted)
    {
      if Distinct(list) {
        assert list[i] !in list[..i];
        assert list[i] !in multiset(sorted);
      }
      sorted := InsertSorted(sorted, list[i]);
      assert list[..i + 1] == list[..i] + [list[i]];
    }
    assert list[..|list|] == list;
  }

  /** get_list_frames: the keyframed frames of every curve, each once, in increasing
      order. Curves whose data path names no rotation are not skipped. */
  method GetListFrames(curves: seq<FCurve>) returns (frames: seq<real>)
    ensures StrictlyIncreasing(frames)
    ensures forall f :: f in frames <==> exists c :: c in curves && f in c.keyframes
  {
    var list := CollectFrames(curves);
    frames := SortFrames(list);
    forall f ensures f in frames <==> exists c :: c in curves && f in c.keyframes {
      KeyedFramesMembership(curves, f);
      assert f in frames <==> f in multiset(frames);
      assert f in list <==> f in multiset(list);
    }
  }

  lemma NoElementsEmpty(s: seq<real>)
    requires forall f :: f !in s
    ensures s == []
  {
    forall f ensures multiset(s)[f] == 0 {
      assert f !in s;
    }
    assert multiset(s) == multiset{};
  }

  /** A strictly increasing sequence is fixed by its elements: the result of
      GetListFrames is the only possible one. */
  lemma {:induction false} StrictlyIncreasingUnique(a: seq<real>, b: seq<real>)
    requires StrictlyIncreasing(a) && StrictlyIncreasing(b)
    requires forall f :: f in a <==> f in b
    ensures a == b
  {
    if a != [] && b != [] {
      assert a[0] in a && b[0] in b;
      var ka :| 0 <= ka < |a| && a[ka] == b[0];
      var kb :| 0 <= kb < |b| && b[kb] == a[0];
      assert a[0] <= a[ka] && b[0] <= b[kb];
      assert a[0] == b[0];
      forall f ensures f in a[1..] <==> f in b[1..] {
        if f in a[1..] {
          var k :| 1 <= k < |a| && a[k] == f;
          assert f in a && f > a[0];
          var k' :| 0 <= k' < |b| && b[k'] == f;
          assert k' != 0;
        }
        if f in b[1..] {
          var k :| 1 <= k < |b| && b[k] == f;
          assert f in b && f > b[0];
          var k' :| 0 <= k' < |a| && a[k'] == f;
          assert k' != 0;
        }
      }
      StrictlyIncreasingUnique(a[1..], b[1..]);
      assert a == [a[0]] + a[1..];
      assert b == [b[0]] + b[1..];
    } else {
      // One side is empty, so neither has an element.
      NoElementsEmpty(a);
      NoElementsEmpty(b);
    }
  }
}
