/** Where the lines an anchor captured sit in another version of the file. */
module Anchor {
  import opened Objects
  import opened Lines

  /** A 1-based inclusive range. */
  datatype LineRange = LineRange(start: nat, end: nat)

  const CONTEXT_MARGIN: nat := 3
  const U64: nat := 0x1_0000_0000_0000_0000
  const U32: nat := 0x1_0000_0000

  /** The longest slice of bytes the platform allows. */
  const MAX_LEN: nat := 0x7fff_ffff_ffff_ffff

  function CheckedAdd(a: nat, b: nat): Option<nat> {
    if a + b < U64 then Some(a + b) else None
  }

  function CheckedSub(a: nat, b: nat): Option<nat> {
    if b <= a then Some(a - b) else None
  }

  function SaturatingAdd(a: nat, b: nat): nat {
    if a + b < U64 then a + b else U64 - 1
  }

  function SaturatingSub(a: nat, b: nat): nat {
    if b <= a then a - b else 0
  }

  function Min(a: nat, b: nat): nat {
    if a <= b then a else b
  }

  // -- hunks ------------------------------------------------------------------------------

  /** Old lines `beforeStart..beforeEnd` became new lines `afterStart..afterEnd`. */
  datatype Hunk = Hunk(beforeStart: nat, beforeEnd: nat, afterStart: nat, afterEnd: nat)

  /** Any hunk list a line diff may produce: in order, apart, with equal lines between.  `b` and `a` are where the
      previous hunk ended in the old and the new file. */
  ghost predicate IsDiff(before: seq<Line>, after: seq<Line>, hunks: seq<Hunk>, b: nat, a: nat)
    decreases |hunks|
  {
    b <= |before| && a <= |after| &&
    if hunks == [] then before[b..] == after[a..]
    else
      var h := hunks[0];
      && b <= h.beforeStart <= h.beforeEnd <= |before|
      && a <= h.afterStart <= h.afterEnd <= |after|
      && before[b..h.beforeStart] == after[a..h.afterStart]
      && IsDiff(before, after, hunks[1..], h.beforeEnd, h.afterEnd)
  }

  /** The diff leaves old line `l` in place as new line `m`. */
  ghost predicate Carries(hunks: seq<Hunk>, b: nat, a: nat, l: nat, m: nat)
    decreases |hunks|
  {
    if b <= l && (hunks == [] || l < hunks[0].beforeStart) && m == a + (l - b) then true
    else hunks != [] && Carries(hunks[1..], hunks[0].beforeEnd, hunks[0].afterEnd, l, m)
  }

  lemma {:induction false} CarriedIsEqual(
    before: seq<Line>, after: seq<Line>, hunks: seq<Hunk>, b: nat, a: nat, l: nat, m: nat)
    requires IsDiff(before, after, hunks, b, a) && Carries(hunks, b, a, l, m) && l < |before|
    ensures b <= l && a <= m < |after| && before[l] == after[m]
    decreases |hunks|
  {
    if hunks == [] {
      assert before[b..][l - b] == after[a..][l - b];
    } else if b <= l < hunks[0].beforeStart && m == a + (l - b) {
      var h := hunks[0];
      assert before[b..h.beforeStart][l - b] == after[a..h.afterStart][l - b];
    } else {
      CarriedIsEqual(before, after, hunks[1..], hunks[0].beforeEnd, hunks[0].afterEnd, l, m);
    }
  }

  /** The hunk changes one of the old lines `start..end`, or inserts strictly between two of them. */
  predicate Touches(h: Hunk, start: nat, end: nat) {
    || (h.beforeStart < h.beforeEnd && h.beforeStart < end && start < h.beforeEnd)
    || (h.beforeStart == h.beforeEnd && start < h.beforeStart < end)
  }

  predicate Touched(hunks: seq<Hunk>, start: nat, end: nat) {
    exists h :: h in hunks && Touches(h, start, end)
  }

  lemma {:induction false} LaterHunks(before: seq<Line>, after: seq<Line>, hunks: seq<Hunk>, b: nat, a: nat, h: Hunk)
    requires IsDiff(before, after, hunks, b, a) && h in hunks
    ensures b <= h.beforeStart <= h.beforeEnd <= |before| && a <= h.afterStart <= h.afterEnd <= |after|
    decreases |hunks|
  {
    if h != hunks[0] {
      LaterHunks(before, after, hunks[1..], hunks[0].beforeEnd, hunks[0].afterEnd, h);
    }
  }

  /** What the tally of the hunks above amounts to: the last of them ended at old line `b` and new line `a`. */
  lemma {:induction false} CarriedBeyond(hunks: seq<Hunk>, b: nat, a: nat, i: nat, l: nat, m: nat)
    requires 0 < i <= |hunks| && Carries(hunks[i..], hunks[i - 1].beforeEnd, hunks[i - 1].afterEnd, l, m)
    ensures Carries(hunks, b, a, l, m)
    decreases i
  {
    if i > 1 {
      assert hunks[1..][i - 1..] == hunks[i..];
      CarriedBeyond(hunks[1..], hunks[0].beforeEnd, hunks[0].afterEnd, i - 1, l, m);
    }
  }

  /** Where the scan stands after `i` hunks. */
  function EndOf(hunks: seq<Hunk>, i: nat): (nat, nat)
    requires i <= |hunks|
  {
    if i == 0 then (0, 0) else (hunks[i - 1].beforeEnd, hunks[i - 1].afterEnd)
  }

  predicate InFile(range: LineRange, len: nat) {
    1 <= range.start <= range.end <= len
  }

  /** Counting from zero, line `k` of the range is carried over as line `k` of the answer. */
  ghost predicate CarriesNth(hunks: seq<Hunk>, range: LineRange, r: LineRange, k: nat)
    requires range.start > 0 && r.start > 0
  {
    Carries(hunks, 0, 0, range.start - 1 + k, r.start - 1 + k)
  }

  /** The answer of a line mapping: same number of lines, inside the new file, and each of them the one the diff
      carries over. */
  ghost predicate Follows(before: seq<Line>, after: seq<Line>, hunks: seq<Hunk>, range: LineRange, r: LineRange) {
    && InFile(range, |before|) && InFile(r, |after|) && r.end - r.start == range.end - range.start
    && (forall k: nat :: k <= range.end - range.start ==> CarriesNth(hunks, range, r, k))
  }

  /** Map a range through the hunks: shifted past those above it, refused if one touches it. */
  method MapRange(before: seq<Line>, after: seq<Line>, hunks: seq<Hunk>, range: LineRange)
    returns (r: Option<LineRange>)
    requires |before| < U32 && |after| < U32 && range.start < U64 && range.end < U64
    requires IsDiff(before, after, hunks, 0, 0)
    ensures r.None? <==> !InFile(range, |before|) || Touched(hunks, range.start - 1, range.end)
    ensures r.Some? ==> Follows(before, after, hunks, range, r.value)
  {
    hide Touches, IsDiff, Carries;
    var start :- CheckedSub(range.start, 1);
    var end := range.end;
    if end <= start {
      return None;
    }
    if end > |before| {
      return None;
    }
    var added: nat, removed: nat := 0, 0;
    var i := 0;
    while i < |hunks|
      invariant i <= |hunks|
      invariant added <= EndOf(hunks, i).1 <= |after|
      invariant removed <= EndOf(hunks, i).0 <= start
      invariant added + EndOf(hunks, i).0 == removed + EndOf(hunks, i).1
      invariant IsDiff(before, after, hunks[i..], EndOf(hunks, i).0, EndOf(hunks, i).1)
      invariant forall h :: h in hunks[..i] ==> !Touches(h, start, end)
    {
      var h := hunks[i];
      ScanStep(before, after, hunks, i);
      if h.beforeEnd <= start {
        var gone :- CheckedSub(h.beforeEnd, h.beforeStart);
        removed :- CheckedAdd(removed, gone);
        var come :- CheckedSub(h.afterEnd, h.afterStart);
        added :- CheckedAdd(added, come);
        AboveIsClear(h, start, end);
        assert hunks[..i + 1] == hunks[..i] + [h];
      } else if h.beforeStart >= end {
        break;
      } else {
        NeitherSideTouches(h, start, end);
        return None;
      }
      i := i + 1;
    }
    ScanEnds(before, after, hunks, i, start, end);
    var s0 :- CheckedAdd(start, added);
    var s1 :- CheckedSub(s0, removed);
    var s2 :- CheckedAdd(s1, 1);
    var e0 :- CheckedAdd(end, added);
    var e1 :- CheckedSub(e0, removed);
    ShiftFollows(before, after, hunks, range, i, s1);
    return Some(LineRange(s2, e1));
  }

  lemma ScanStep(before: seq<Line>, after: seq<Line>, hunks: seq<Hunk>, i: nat)
    requires i < |hunks| && IsDiff(before, after, hunks[i..], EndOf(hunks, i).0, EndOf(hunks, i).1)
    ensures var h := hunks[i];
            var (b, a) := EndOf(hunks, i);
            && b <= h.beforeStart <= h.beforeEnd <= |before| && a <= h.afterStart <= h.afterEnd <= |after|
            && h.beforeStart - b == h.afterStart - a
            && EndOf(hunks, i + 1) == (h.beforeEnd, h.afterEnd)
            && IsDiff(before, after, hunks[i + 1..], h.beforeEnd, h.afterEnd)
  {
    var h := hunks[i];
    var (b, a) := EndOf(hunks, i);
    assert hunks[i..][0] == h && hunks[i..][1..] == hunks[i + 1..];
    assert |before[b..h.beforeStart]| == |after[a..h.afterStart]|;
  }

  lemma AboveIsClear(h: Hunk, start: nat, end: nat)
    requires h.beforeEnd <= start
    ensures !Touches(h, start, end)
  {
  }

  lemma NeitherSideTouches(h: Hunk, start: nat, end: nat)
    requires h.beforeStart <= h.beforeEnd && start < h.beforeEnd && h.beforeStart < end
    ensures Touches(h, start, end)
  {
  }

  /** Where the scan stops, the rest of the hunks lie below the range. */
  lemma ScanEnds(before: seq<Line>, after: seq<Line>, hunks: seq<Hunk>, i: nat, start: nat, end: nat)
    requires i <= |hunks| && IsDiff(before, after, hunks[i..], EndOf(hunks, i).0, EndOf(hunks, i).1)
    requires forall h :: h in hunks[..i] ==> !Touches(h, start, end)
    requires i < |hunks| ==> hunks[i].beforeStart >= end
    ensures !Touched(hunks, start, end)
  {
    forall h | h in hunks
      ensures !Touches(h, start, end)
    {
      assert hunks == hunks[..i] + hunks[i..];
      if h in hunks[i..] {
        assert hunks[i..][0] == hunks[i] && hunks[i..][1..] == hunks[i + 1..];
        if h != hunks[i] {
          assert h in hunks[i + 1..];
          LaterHunks(before, after, hunks[i + 1..], hunks[i].beforeEnd, hunks[i].afterEnd, h);
        }
      }
    }
  }

  lemma ShiftFollows(before: seq<Line>, after: seq<Line>, hunks: seq<Hunk>, range: LineRange, i: nat, shifted: nat)
    requires InFile(range, |before|) && IsDiff(before, after, hunks, 0, 0)
    requires i <= |hunks| && EndOf(hunks, i).0 <= range.start - 1
    requires IsDiff(before, after, hunks[i..], EndOf(hunks, i).0, EndOf(hunks, i).1)
    requires i < |hunks| ==> hunks[i].beforeStart >= range.end
    requires shifted + EndOf(hunks, i).0 == range.start - 1 + EndOf(hunks, i).1
    ensures Follows(before, after, hunks, range, LineRange(shifted + 1, shifted + 1 + range.end - range.start))
  {
    hide IsDiff, Carries;
    var r := LineRange(shifted + 1, shifted + 1 + range.end - range.start);
    forall k: nat | k <= range.end - range.start
      ensures CarriesNth(hunks, range, r, k)
    {
      ShiftCarries(before, after, hunks, i, range.start - 1 + k, r.start - 1 + k);
    }
    ShiftCarries(before, after, hunks, i, range.end - 1, r.end - 1);
  }

  lemma ShiftCarries(before: seq<Line>, after: seq<Line>, hunks: seq<Hunk>, i: nat, l: nat, m: nat)
    requires i <= |hunks| && EndOf(hunks, i).0 <= l < |before|
    requires IsDiff(before, after, hunks[i..], EndOf(hunks, i).0, EndOf(hunks, i).1)
    requires i < |hunks| ==> l < hunks[i].beforeStart
    requires m + EndOf(hunks, i).0 == l + EndOf(hunks, i).1
    ensures Carries(hunks, 0, 0, l, m) && m < |after|
  {
    hide IsDiff;
    var (b, a) := EndOf(hunks, i);
    assert i < |hunks| ==> hunks[i..][0] == hunks[i];
    assert Carries(hunks[i..], b, a, l, m);
    CarriedIsEqual(before, after, hunks[i..], b, a, l, m);
    if i > 0 {
      CarriedBeyond(hunks, 0, 0, i, l, m);
    } else {
      assert hunks[0..] == hunks;
    }
  }

  /** The mapped lines are, one by one, the anchored lines. */
  lemma FollowedLinesAreEqual(before: seq<Line>, after: seq<Line>, hunks: seq<Hunk>, range: LineRange, r: LineRange)
    requires IsDiff(before, after, hunks, 0, 0) && Follows(before, after, hunks, range, r)
    ensures after[r.start - 1..r.end] == before[range.start - 1..range.end]
  {
    hide IsDiff, Carries;
    var now, was := after[r.start - 1..r.end], before[range.start - 1..range.end];
    forall k: nat | k < |was|
      ensures now[k] == was[k]
    {
      assert CarriesNth(hunks, range, r, k);
      CarriedIsEqual(before, after, hunks, 0, 0, range.start - 1 + k, r.start - 1 + k);
    }
  }

  lemma {:induction false} CarriesToOneLine(
    before: seq<Line>, after: seq<Line>, hunks: seq<Hunk>, b: nat, a: nat, l: nat, m: nat, m': nat)
    requires IsDiff(before, after, hunks, b, a) && l < |before|
    requires Carries(hunks, b, a, l, m) && Carries(hunks, b, a, l, m')
    ensures m == m'
    decreases |hunks|
  {
    if hunks != [] {
      var h := hunks[0];
      if Carries(hunks[1..], h.beforeEnd, h.afterEnd, l, m) {
        CarriedIsEqual(before, after, hunks[1..], h.beforeEnd, h.afterEnd, l, m);
      }
      if Carries(hunks[1..], h.beforeEnd, h.afterEnd, l, m') {
        CarriedIsEqual(before, after, hunks[1..], h.beforeEnd, h.afterEnd, l, m');
      }
      if Carries(hunks[1..], h.beforeEnd, h.afterEnd, l, m) && Carries(hunks[1..], h.beforeEnd, h.afterEnd, l, m') {
        CarriesToOneLine(before, after, hunks[1..], h.beforeEnd, h.afterEnd, l, m, m');
      }
    }
  }

  /** A diff determines the mapping: there is one answer that follows it. */
  lemma FollowsIsFunctional(
    before: seq<Line>, after: seq<Line>, hunks: seq<Hunk>, range: LineRange, r: LineRange, r': LineRange)
    requires IsDiff(before, after, hunks, 0, 0)
    requires Follows(before, after, hunks, range, r) && Follows(before, after, hunks, range, r')
    ensures r == r'
  {
    hide IsDiff, Carries;
    assert CarriesNth(hunks, range, r, 0) && CarriesNth(hunks, range, r', 0);
    CarriesToOneLine(before, after, hunks, 0, 0, range.start - 1, r.start - 1, r'.start - 1);
  }

  // -- when there is an answer -------------------------------------------------------------

  predicate AllChange(hunks: seq<Hunk>) {
    forall h :: h in hunks ==> h.beforeStart < h.beforeEnd || h.afterStart < h.afterEnd
  }

  /** A range in the file has an answer exactly when no hunk touches it: one that does takes a line of it away, or puts
      one between two of them. */
  lemma AnswerIff(before: seq<Line>, after: seq<Line>, hunks: seq<Hunk>, range: LineRange)
    requires IsDiff(before, after, hunks, 0, 0) && AllChange(hunks) && InFile(range, |before|)
    ensures Touched(hunks, range.start - 1, range.end) <==>
              !exists r: LineRange :: Follows(before, after, hunks, range, r)
  {
    hide IsDiff, Follows, Touches;
    if !Touched(hunks, range.start - 1, range.end) {
      assert hunks[0..] == hunks;
      var r := UntouchedFollows(before, after, hunks, range, 0);
    } else {
      forall r: LineRange
        ensures !Follows(before, after, hunks, range, r)
      {
        TouchedDoesNotFollow(before, after, hunks, range, r);
      }
    }
  }

  lemma UntouchedFollows(before: seq<Line>, after: seq<Line>, hunks: seq<Hunk>, range: LineRange, i: nat)
    returns (r: LineRange)
    requires IsDiff(before, after, hunks, 0, 0) && InFile(range, |before|)
    requires !Touched(hunks, range.start - 1, range.end)
    requires i <= |hunks| && EndOf(hunks, i).0 < range.start
    requires IsDiff(before, after, hunks[i..], EndOf(hunks, i).0, EndOf(hunks, i).1)
    ensures Follows(before, after, hunks, range, r)
    decreases |hunks| - i
  {
    hide IsDiff, Follows, Touches;
    if i < |hunks| {
      ScanStep(before, after, hunks, i);
      if hunks[i].beforeStart < range.end && range.start - 1 < hunks[i].beforeEnd {
        NeitherSideTouches(hunks[i], range.start - 1, range.end);
      }
    }
    if i < |hunks| && hunks[i].beforeEnd < range.start {
      r := UntouchedFollows(before, after, hunks, range, i + 1);
    } else {
      var shifted := range.start - 1 - EndOf(hunks, i).0 + EndOf(hunks, i).1;
      ShiftFollows(before, after, hunks, range, i, shifted);
      r := LineRange(shifted + 1, shifted + 1 + range.end - range.start);
    }
  }

  lemma TouchedDoesNotFollow(
    before: seq<Line>, after: seq<Line>, hunks: seq<Hunk>, range: LineRange, r: LineRange)
    requires IsDiff(before, after, hunks, 0, 0) && AllChange(hunks) && InFile(range, |before|)
    requires Touched(hunks, range.start - 1, range.end)
    ensures !Follows(before, after, hunks, range, r)
  {
    hide IsDiff, Carries;
    var start := range.start - 1;
    var h :| h in hunks && Touches(h, start, range.end);
    LaterHunks(before, after, hunks, 0, 0, h);
    if Follows(before, after, hunks, range, r) {
      var l := if h.beforeStart < h.beforeEnd && h.beforeStart < start then start else h.beforeStart;
      var k := l - start;
      assert CarriesNth(hunks, range, r, k);
      if h.beforeStart < h.beforeEnd {
        TakenAway(before, after, hunks, 0, 0, h, l, r.start - 1 + k);
      } else {
        assert CarriesNth(hunks, range, r, k - 1);
        CarriedSide(before, after, hunks, 0, 0, h, l, r.start - 1 + k);
        CarriedSide(before, after, hunks, 0, 0, h, l - 1, r.start - 1 + (k - 1));
      }
    }
  }

  /** A line a hunk changes is carried nowhere. */
  lemma {:induction false} TakenAway(
    before: seq<Line>, after: seq<Line>, hunks: seq<Hunk>, b: nat, a: nat, h: Hunk, l: nat, m: nat)
    requires IsDiff(before, after, hunks, b, a) && h in hunks && h.beforeStart <= l < h.beforeEnd
    ensures !Carries(hunks, b, a, l, m)
    decreases |hunks|
  {
    var first := hunks[0];
    LaterHunks(before, after, hunks, b, a, h);
    if h == first {
      if Carries(hunks[1..], first.beforeEnd, first.afterEnd, l, m) {
        CarriedIsEqual(before, after, hunks[1..], first.beforeEnd, first.afterEnd, l, m);
      }
    } else {
      LaterHunks(before, after, hunks[1..], first.beforeEnd, first.afterEnd, h);
      TakenAway(before, after, hunks[1..], first.beforeEnd, first.afterEnd, h, l, m);
    }
  }

  /** Lines above a hunk are carried above it, lines below it below. */
  lemma {:induction false} CarriedSide(
    before: seq<Line>, after: seq<Line>, hunks: seq<Hunk>, b: nat, a: nat, h: Hunk, l: nat, m: nat)
    requires IsDiff(before, after, hunks, b, a) && h in hunks && Carries(hunks, b, a, l, m) && l < |before|
    ensures l < h.beforeStart ==> m < h.afterStart
    ensures l >= h.beforeEnd ==> m >= h.afterEnd
    decreases |hunks|
  {
    var first := hunks[0];
    assert |before[b..first.beforeStart]| == |after[a..first.afterStart]|;
    if h != first {
      LaterHunks(before, after, hunks[1..], first.beforeEnd, first.afterEnd, h);
    }
    if !(b <= l < first.beforeStart && m == a + (l - b)) {
      CarriedIsEqual(before, after, hunks[1..], first.beforeEnd, first.afterEnd, l, m);
      if h != first {
        CarriedSide(before, after, hunks[1..], first.beforeEnd, first.afterEnd, h, l, m);
      }
    }
  }
}
