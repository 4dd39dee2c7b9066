/** What redaction cuts out of a string, told on that string alone. */
module RedactTrace {
  import opened Sequences
  import opened Text
  import opened Redact

  // ---------------------------------------------------------------- where the text between cuts ends up

  /** Where `s[i]`, which no cut takes, stands once the cuts from `from` on are made; `off` is where `s[from]` stands. */
  function Place(cuts: seq<Loc>, from: int, off: int, i: int): int {
    if cuts == [] || i < cuts[0].start then off + (i - from)
    else Place(cuts[1..], cuts[0].end, off + (cuts[0].start - from) + 10, i)
  }

  lemma PlaceMoves(cuts: seq<Loc>, from: int, off: int, d: int, i: int)
    ensures Place(cuts, from + d, off + d, i) == Place(cuts, from, off, i)
  {
  }

  lemma TailsFit(s: string, cuts: seq<Loc>, from: nat)
    requires InOrder(s, cuts, from) && cuts != []
    ensures forall n :: 0 <= n < |cuts[1..]| ==> cuts[1..][n] == cuts[n + 1]
    ensures forall n :: 0 < n < |cuts| ==> cuts[0].end <= cuts[n].start < cuts[n].end
    ensures from <= cuts[0].start < cuts[0].end <= |s|
  {
    InOrderFits(s, cuts[1..], cuts[0].end);
  }

  lemma GapOfTail(s: string, cuts: seq<Loc>, from: nat, i: int, j: int)
    requires InOrder(s, cuts, from) && cuts != [] && 0 <= i < j && InGap(cuts, i, j)
    ensures InGap(cuts[1..], i, j) && (j <= cuts[0].start || cuts[0].end <= i)
  {
    TailsFit(s, cuts, from);
  }

  /** Between the cuts the order stays. */
  lemma {:induction false} PlaceIsMonotone(s: string, cuts: seq<Loc>, from: nat, off: int, i: nat, k: nat)
    requires InOrder(s, cuts, from) && from <= i < k && InGap(cuts, i, i + 1) && InGap(cuts, k, k + 1)
    ensures off <= Place(cuts, from, off, i) < Place(cuts, from, off, k)
    decreases |cuts|
  {
    if cuts != [] {
      GapOfTail(s, cuts, from, i, i + 1);
      GapOfTail(s, cuts, from, k, k + 1);
      TailsFit(s, cuts, from);
      if i >= cuts[0].start {
        PlaceIsMonotone(s, cuts[1..], cuts[0].end, off + (cuts[0].start - from) + 10, i, k);
      } else if k >= cuts[0].start {
        PlaceIsBehind(s, cuts[1..], cuts[0].end, off + (cuts[0].start - from) + 10, k);
      }
    }
  }

  lemma {:induction false} PlaceIsBehind(s: string, cuts: seq<Loc>, from: nat, off: int, i: nat)
    requires InOrder(s, cuts, from) && from <= i && InGap(cuts, i, i + 1)
    ensures off <= Place(cuts, from, off, i)
    decreases |cuts|
  {
    if cuts != [] {
      GapOfTail(s, cuts, from, i, i + 1);
      TailsFit(s, cuts, from);
      if i >= cuts[0].start {
        PlaceIsBehind(s, cuts[1..], cuts[0].end, off + (cuts[0].start - from) + 10, i);
      }
    }
  }

  ghost predicate CutEnds(cuts: seq<Loc>, i: int) {
    exists n :: 0 <= n < |cuts| && cuts[n].end == i
  }

  ghost predicate CutStarts(cuts: seq<Loc>, j: int) {
    exists n :: 0 <= n < |cuts| && cuts[n].start == j
  }

  /** `out` from `off` on is `s` from `from` on with the cuts made. */
  ghost predicate IsCut(s: string, cuts: seq<Loc>, from: nat, out: string, off: nat) {
    InOrder(s, cuts, from) && off <= |out| && out[off..] == Cut(s, cuts, from)
  }

  /** The first cut made, what follows is the rest with the other cuts made. */
  lemma IsCutBehind(s: string, cuts: seq<Loc>, from: nat, out: string, off: nat)
    requires IsCut(s, cuts, from, out, off) && cuts != []
    ensures
      var g := cuts[0].start - from;
      && off + g + 10 <= |out| && out[off..off + g] == s[from..cuts[0].start]
      && out[off + g] == '<' && out[off + g + 1..off + g + 9] == "redacted" && out[off + g + 9] == '>'
      && IsCut(s, cuts[1..], cuts[0].end, out, off + g + 10)
  {
    hide Cut;
    var g := cuts[0].start - from;
    CutParts(s, cuts, from);
    var all, rest := Cut(s, cuts, from), Cut(s, cuts[1..], cuts[0].end);
    assert forall x :: 0 <= x < |all| ==> all[x] == out[off + x];
    assert out[off + g + 1..off + g + 9] == all[g + 1..g + 9];
    assert out[off + g + 10..] == rest;
    assert out[off..off + g] == s[from..cuts[0].start];
  }

  lemma IsCutPlain(s: string, from: nat, out: string, off: nat)
    requires IsCut(s, [], from, out, off)
    ensures out[off..] == s[from..]
  {
  }

  /** In front of `out[x]` stands what stood in front of `s[i]`, or the end of a placeholder where a cut ended. */
  ghost predicate SameBefore(s: string, cuts: seq<Loc>, from: nat, out: string, off: nat, i: nat, x: int)
    requires i <= |s|
  {
    if i == from then x == off
    else off < x <= |out| && i > 0 && if CutEnds(cuts, i) then out[x - 1] == '>' else out[x - 1] == s[i - 1]
  }

  ghost predicate SameBehind(s: string, cuts: seq<Loc>, out: string, j: nat, y: int) {
    if j >= |s| then y == |out|
    else 0 <= y < |out| && if CutStarts(cuts, j) then out[y] == '<' else out[y] == s[j]
  }

  lemma SliceAt(out: string, off: nat, rest: string, a: nat, b: nat)
    requires off <= |out| && a <= b && b <= |rest| <= |out| - off && out[off..off + |rest|] == rest
    ensures out[off + a..off + b] == rest[a..b]
    ensures forall k :: 0 <= k < |rest| ==> out[off + k] == rest[k]
  {
    forall k | 0 <= k < |rest|
      ensures out[off + k] == rest[k]
    {
      assert rest[k] == out[off..off + |rest|][k];
    }
  }

  lemma SliceOfSlice(s: string, from: nat, end: nat, i: nat, j: nat)
    requires from <= i <= j <= end <= |s|
    ensures s[from..end][i - from..j - from] == s[i..j]
    ensures end == |s| ==> s[from..] == s[from..end]
  {
    Within(s, from, end, s[from..end], i, j);
  }

  lemma PlacedBefore(s: string, cuts: seq<Loc>, from: nat, out: string, off: nat, i: nat, j: nat)
    requires IsCut(s, cuts, from, out, off) && from <= i < j <= |s|
    requires cuts != [] ==> j <= cuts[0].start
    ensures
      var x := off + (i - from);
      && x + (j - i) <= |out| && out[x..x + (j - i)] == s[i..j]
      && SameBefore(s, cuts, from, out, off, i, x) && SameBehind(s, cuts, out, j, x + (j - i))
  {
    hide Cut, IsCut;
    if cuts == [] {
      IsCutPlain(s, from, out, off);
      CutFits(s, cuts, from, out, off);
      SliceAt(out, off, s[from..], i - from, j - from);
      SliceOfSlice(s, from, |s|, i, j);
    } else {
      IsCutBehind(s, cuts, from, out, off);
      CutFits(s, cuts, from, out, off);
      TailsFit(s, cuts, from);
      SliceAt(out, off, s[from..cuts[0].start], i - from, j - from);
      SliceOfSlice(s, from, cuts[0].start, i, j);
    }
  }

  lemma CutFits(s: string, cuts: seq<Loc>, from: nat, out: string, off: nat)
    requires IsCut(s, cuts, from, out, off)
    ensures off <= |out| && InOrder(s, cuts, from)
  {
  }

  lemma PlacedBehind(s: string, cuts: seq<Loc>, from: nat, out: string, off: nat, i: nat, j: nat, x: int)
    requires IsCut(s, cuts, from, out, off) && cuts != [] && cuts[0].end <= i < j <= |s|
    requires SameBefore(s, cuts[1..], cuts[0].end, out, off + (cuts[0].start - from) + 10, i, x)
    requires SameBehind(s, cuts[1..], out, j, x + (j - i))
    ensures SameBefore(s, cuts, from, out, off, i, x) && SameBehind(s, cuts, out, j, x + (j - i))
  {
    IsCutBehind(s, cuts, from, out, off);
    TailsFit(s, cuts, from);
    hide IsCut;
    if n :| 0 <= n < |cuts[1..]| && cuts[1..][n].end == i {
      assert cuts[n + 1].end == i;
    }
    if n :| 0 <= n < |cuts[1..]| && cuts[1..][n].start == j {
      assert cuts[n + 1].start == j;
    }
    assert CutEnds(cuts, i) <==> i == cuts[0].end || CutEnds(cuts[1..], i);
    assert CutStarts(cuts, j) <==> CutStarts(cuts[1..], j);
  }

  /** A stretch between the cuts is found again, with its neighbours or the brackets of a placeholder in their stead. */
  lemma {:induction false} GapIsPlaced(s: string, cuts: seq<Loc>, from: nat, out: string, off: nat, i: nat, j: nat)
    requires IsCut(s, cuts, from, out, off) && from <= i < j <= |s| && InGap(cuts, i, j)
    ensures
      var x := Place(cuts, from, off, i);
      && off <= x && x + (j - i) <= |out| && out[x..x + (j - i)] == s[i..j]
      && SameBefore(s, cuts, from, out, off, i, x) && SameBehind(s, cuts, out, j, x + (j - i))
    decreases |cuts|
  {
    hide IsCut, SameBefore, SameBehind, InGap;
    hide Cut, InOrder;
    CutFits(s, cuts, from, out, off);
    if cuts == [] {
      PlacedBefore(s, cuts, from, out, off, i, j);
    } else {
      GapOfTail(s, cuts, from, i, j);
      if j <= cuts[0].start {
        PlacedBefore(s, cuts, from, out, off, i, j);
      } else {
        TailsFit(s, cuts, from);
        IsCutBehind(s, cuts, from, out, off);
        GapIsPlaced(s, cuts[1..], cuts[0].end, out, off + (cuts[0].start - from) + 10, i, j);
        PlacedBehind(s, cuts, from, out, off, i, j, Place(cuts, from, off, i));
      }
    }
  }

  // ---------------------------------------------------------------- cutting once more

  /** The stretch of `out` that the stretch `l` of `s`, between the cuts, becomes. */
  function Image(cuts: seq<Loc>, from: int, off: int, l: Loc): (r: (int, int)) {
    (Place(cuts, from, off, l.start), Place(cuts, from, off, l.start) + (l.end - l.start))
  }

  /** `l` lies between the cuts and becomes one of `locs`. */
  ghost predicate Lifted(s: string, cuts: seq<Loc>, from: nat, off: nat, locs: seq<Loc>, l: Loc) {
    && from <= l.start < l.end <= |s| && InGap(cuts, l.start, l.end)
    && exists n :: 0 <= n < |locs| && Image(cuts, from, off, l) == (locs[n].start, locs[n].end)
  }

  ghost predicate Foreigners(out: string, locs: seq<Loc>) {
    forall n :: 0 <= n < |locs| ==> locs[n].start <= locs[n].end <= |out| && Foreign(out[locs[n].start..locs[n].end])
  }

  /** Stretches that a second pass cuts out of the rest: the same comes of cutting them out of `s` along with the first. */
  ghost predicate Merges(s: string, cuts: seq<Loc>, from: nat, out: string, off: nat, locs: seq<Loc>, merged: seq<Loc>)
    requires InOrder(out, locs, off)
  {
    && InOrder(s, merged, from) && Cut(s, merged, from) == Cut(out, locs, off)
    && Adds(s, cuts, from, off, locs, merged)
  }

  ghost predicate AddsFor(s: string, cuts: seq<Loc>, from: nat, off: nat, m: Loc, merged: seq<Loc>) {
    exists l :: l in merged && Lifted(s, cuts, from, off, [m], l)
  }

  /** The cuts, and for each of `locs` the stretch that becomes it. */
  ghost predicate Adds(s: string, cuts: seq<Loc>, from: nat, off: nat, locs: seq<Loc>, merged: seq<Loc>) {
    && (forall l :: l in merged ==> l in cuts || Lifted(s, cuts, from, off, locs, l))
    && (forall l :: l in cuts ==> l in merged)
    && (forall n :: 0 <= n < |locs| ==> AddsFor(s, cuts, from, off, locs[n], merged))
  }

  lemma {:induction false} MergeCuts(s: string, cuts: seq<Loc>, from: nat, out: string, off: nat, locs: seq<Loc>) returns (merged: seq<Loc>)
    requires IsCut(s, cuts, from, out, off) && InOrder(out, locs, off) && Foreigners(out, locs)
    ensures Merges(s, cuts, from, out, off, locs, merged)
    decreases |cuts| + |locs|
  {
    hide IsCut, Foreigners, Merges;
    CutFits(s, cuts, from, out, off);
    if locs == [] {
      merged := cuts;
      MergeNothing(s, cuts, from, out, off);
    } else if cuts == [] || locs[0].end - off <= cuts[0].start - from {
      var l := Loc(from + (locs[0].start - off), from + (locs[0].end - off));
      MergeFits(s, cuts, from, out, off, locs, l);
      var rest := MergeCuts(s, cuts, l.end, out, locs[0].end, locs[1..]);
      merged := [l] + rest;
      MergeLoc(s, cuts, from, out, off, locs, l, rest);
    } else {
      var next := off + (cuts[0].start - from) + 10;
      LocIsBehind(s, cuts, from, out, off, locs);
      IsCutBehind(s, cuts, from, out, off);
      var rest := MergeCuts(s, cuts[1..], cuts[0].end, out, next, locs);
      merged := [cuts[0]] + rest;
      MergeCut(s, cuts, from, out, off, locs, rest);
    }
  }

  lemma MergeNothing(s: string, cuts: seq<Loc>, from: nat, out: string, off: nat)
    requires IsCut(s, cuts, from, out, off)
    ensures InOrder(out, [], off) && Merges(s, cuts, from, out, off, [], cuts)
  {
    hide Lifted;
    CutOfNothing(out, off);
  }

  /** The first stretch lies in front of the first cut; what follows it is cut as before. */
  lemma MergeFits(s: string, cuts: seq<Loc>, from: nat, out: string, off: nat, locs: seq<Loc>, l: Loc)
    requires IsCut(s, cuts, from, out, off) && InOrder(out, locs, off) && locs != [] && Foreigners(out, locs)
    requires cuts != [] ==> locs[0].end - off <= cuts[0].start - from
    requires l == Loc(from + (locs[0].start - off), from + (locs[0].end - off))
    ensures from <= l.start < l.end <= |s| && (cuts != [] ==> l.end <= cuts[0].start)
    ensures out[off..locs[0].start] == s[from..l.start]
    ensures IsCut(s, cuts, l.end, out, locs[0].end) && InOrder(out, locs[1..], locs[0].end) && Foreigners(out, locs[1..])
  {
    hide IsCut, Foreigners, InOrder, Cut;
    FirstFits(out, locs, off);
    ForeignTail(out, locs);
    OrderOfTail(out, locs, off);
    FitsInFront(s, cuts, from, out, off, locs[0].end - off);
    IsCutMoves(s, cuts, from, out, off, locs[0].start - off);
    IsCutMoves(s, cuts, from, out, off, locs[0].end - off);
  }

  lemma ForeignTail(out: string, locs: seq<Loc>)
    requires Foreigners(out, locs) && locs != []
    ensures Foreigners(out, locs[1..])
  {
    hide Foreign;
    assert forall n :: 0 <= n < |locs[1..]| ==> locs[1..][n] == locs[n + 1];
  }

  lemma OrderOfTail(s: string, locs: seq<Loc>, from: nat)
    requires InOrder(s, locs, from) && locs != []
    ensures InOrder(s, locs[1..], locs[0].end)
  {
  }

  lemma FitsInFront(s: string, cuts: seq<Loc>, from: nat, out: string, off: nat, d: nat)
    requires IsCut(s, cuts, from, out, off) && off + d <= |out|
    requires cuts != [] ==> d <= cuts[0].start - from
    ensures from + d <= |s|
  {
    if cuts == [] {
      IsCutPlain(s, from, out, off);
    } else {
      TailsFit(s, cuts, from);
    }
  }

  /** In front of the first cut both texts move on together. */
  lemma IsCutMoves(s: string, cuts: seq<Loc>, from: nat, out: string, off: nat, d: nat)
    requires IsCut(s, cuts, from, out, off) && from + d <= |s|
    requires cuts != [] ==> from + d <= cuts[0].start
    ensures off + d <= |out| && out[off..off + d] == s[from..from + d] && IsCut(s, cuts, from + d, out, off + d)
  {
    if cuts == [] {
      assert out[off..off + d] == out[off..][..d] && s[from..][..d] == s[from..from + d];
      assert out[off + d..] == out[off..][d..] && s[from..][d..] == s[from + d..];
    } else {
      var rest := PLACEHOLDER + Cut(s, cuts[1..], cuts[0].end);
      assert out[off..] == s[from..cuts[0].start] + rest;
      assert s[from..cuts[0].start] == s[from..from + d] + s[from + d..cuts[0].start];
      MovesBy(out[off..], s[from..from + d], s[from + d..cuts[0].start], rest);
      assert out[off..off + d] == out[off..][..d] && out[off + d..] == out[off..][d..];
      assert s[from + d..cuts[0].start] + rest == s[from + d..cuts[0].start] + PLACEHOLDER + Cut(s, cuts[1..], cuts[0].end);
    }
  }

  lemma MovesBy(t: string, a: string, b: string, c: string)
    requires t == (a + b) + c
    ensures |t| >= |a| && t[..|a|] == a && t[|a|..] == b + c
  {
  }

  /** The same stretch, seen from further on. */
  lemma LiftedFromEarlier(s: string, cuts: seq<Loc>, from: nat, off: nat, d: nat, locs: seq<Loc>, l: Loc)
    requires locs != [] && Lifted(s, cuts, from + d, off + d, locs[1..], l)
    ensures Lifted(s, cuts, from, off, locs, l)
  {
    hide InGap;
    PlaceMoves(cuts, from, off, d, l.start);
    hide Place;
    var n :| 0 <= n < |locs[1..]| && Image(cuts, from + d, off + d, l) == (locs[1..][n].start, locs[1..][n].end);
    assert locs[1..][n] == locs[n + 1];
  }

  lemma OneLiftedFromEarlier(s: string, cuts: seq<Loc>, from: nat, off: nat, d: nat, m: Loc, l: Loc)
    requires Lifted(s, cuts, from + d, off + d, [m], l)
    ensures Lifted(s, cuts, from, off, [m], l)
  {
    hide InGap;
    PlaceMoves(cuts, from, off, d, l.start);
    hide Place;
  }

  /** Behind the first cut a stretch is where it is with the others alone. */
  lemma LiftedBehind(s: string, cuts: seq<Loc>, from: nat, off: nat, locs: seq<Loc>, l: Loc)
    requires cuts != [] && from <= cuts[0].start < cuts[0].end
    requires Lifted(s, cuts[1..], cuts[0].end, off + (cuts[0].start - from) + 10, locs, l)
    ensures Lifted(s, cuts, from, off, locs, l)
  {
    assert forall n :: 0 < n < |cuts| ==> cuts[n] == cuts[1..][n - 1];
  }

  lemma LiftedFirst(s: string, cuts: seq<Loc>, from: nat, off: nat, locs: seq<Loc>, l: Loc)
    requires InOrder(s, cuts, from) && locs != [] && off <= locs[0].start < locs[0].end
    requires l == Loc(from + (locs[0].start - off), from + (locs[0].end - off)) && l.end <= |s|
    requires cuts != [] ==> l.end <= cuts[0].start
    ensures Lifted(s, cuts, from, off, locs, l) && Lifted(s, cuts, from, off, [locs[0]], l)
  {
    if cuts != [] {
      TailsFit(s, cuts, from);
    }
    assert InGap(cuts, l.start, l.end);
    assert Image(cuts, from, off, l) == (locs[0].start, locs[0].end);
    assert [locs[0]][0] == locs[0];
  }

  lemma MergeLoc(s: string, cuts: seq<Loc>, from: nat, out: string, off: nat, locs: seq<Loc>, l: Loc, rest: seq<Loc>)
    requires IsCut(s, cuts, from, out, off) && InOrder(out, locs, off) && locs != [] && Foreigners(out, locs)
    requires cuts != [] ==> locs[0].end - off <= cuts[0].start - from
    requires l == Loc(from + (locs[0].start - off), from + (locs[0].end - off))
    requires InOrder(out, locs[1..], locs[0].end) && Merges(s, cuts, l.end, out, locs[0].end, locs[1..], rest)
    ensures Merges(s, cuts, from, out, off, locs, [l] + rest)
  {
    hide IsCut, InOrder, Cut, Foreigners, Adds;
    MergeFits(s, cuts, from, out, off, locs, l);
    MergeLocCuts(s, cuts, from, out, off, locs, l, rest);
    CutFits(s, cuts, from, out, off);
    FirstFits(out, locs, off);
    AddsLoc(s, cuts, from, off, locs, l, rest);
  }

  lemma AddsLoc(s: string, cuts: seq<Loc>, from: nat, off: nat, locs: seq<Loc>, l: Loc, rest: seq<Loc>)
    requires InOrder(s, cuts, from) && locs != [] && off <= locs[0].start < locs[0].end
    requires l == Loc(from + (locs[0].start - off), from + (locs[0].end - off)) && l.end <= |s|
    requires cuts != [] ==> l.end <= cuts[0].start
    requires Adds(s, cuts, l.end, locs[0].end, locs[1..], rest)
    ensures Adds(s, cuts, from, off, locs, [l] + rest)
  {
    LiftedFirst(s, cuts, from, off, locs, l);
    hide InOrder, Lifted;
    var merged, d := [l] + rest, l.end - from;
    forall x | x in merged
      ensures x in cuts || Lifted(s, cuts, from, off, locs, x)
    {
      if x != l && x !in cuts {
        LiftedFromEarlier(s, cuts, from, off, d, locs, x);
      }
    }
    forall n | 0 <= n < |locs|
      ensures AddsFor(s, cuts, from, off, locs[n], merged)
    {
      if n == 0 {
        assert l in merged;
      } else {
        assert locs[1..][n - 1] == locs[n];
        assert AddsFor(s, cuts, l.end, locs[0].end, locs[n], rest);
        var x :| x in rest && Lifted(s, cuts, l.end, locs[0].end, [locs[n]], x);
        OneLiftedFromEarlier(s, cuts, from, off, d, locs[n], x);
        assert x in merged;
      }
    }
  }

  lemma MergeLocCuts(s: string, cuts: seq<Loc>, from: nat, out: string, off: nat, locs: seq<Loc>, l: Loc, rest: seq<Loc>)
    requires InOrder(out, locs, off) && locs != [] && from <= l.start < l.end <= |s|
    requires out[off..locs[0].start] == s[from..l.start]
    requires InOrder(s, rest, l.end) && InOrder(out, locs[1..], locs[0].end) && Cut(s, rest, l.end) == Cut(out, locs[1..], locs[0].end)
    ensures InOrder(s, [l] + rest, from) && Cut(s, [l] + rest, from) == Cut(out, locs, off)
  {
    assert ([l] + rest)[1..] == rest;
  }

  /** What is cut out next lies behind the first placeholder. */
  lemma LocIsBehind(s: string, cuts: seq<Loc>, from: nat, out: string, off: nat, locs: seq<Loc>)
    requires IsCut(s, cuts, from, out, off) && cuts != [] && InOrder(out, locs, off) && locs != [] && Foreigners(out, locs)
    requires locs[0].end - off > cuts[0].start - from
    ensures off + (cuts[0].start - from) + 10 <= locs[0].start
    ensures InOrder(out, locs, off + (cuts[0].start - from) + 10)
  {
    CutFits(s, cuts, from, out, off);
    TailsFit(s, cuts, from);
    IsCutBehind(s, cuts, from, out, off);
    hide IsCut, Foreign;
    assert Foreign(out[locs[0].start..locs[0].end]);
    OutsidePlaceholder(out, off + (cuts[0].start - from), locs[0].start, locs[0].end);
  }

  lemma MergeCut(s: string, cuts: seq<Loc>, from: nat, out: string, off: nat, locs: seq<Loc>, rest: seq<Loc>)
    requires IsCut(s, cuts, from, out, off) && cuts != [] && InOrder(out, locs, off) && locs != []
    requires off + (cuts[0].start - from) + 10 <= locs[0].start
    requires InOrder(out, locs, off + (cuts[0].start - from) + 10)
    requires Merges(s, cuts[1..], cuts[0].end, out, off + (cuts[0].start - from) + 10, locs, rest)
    ensures Merges(s, cuts, from, out, off, locs, [cuts[0]] + rest)
  {
    hide IsCut, InOrder, Cut, Adds;
    IsCutBehind(s, cuts, from, out, off);
    CutFits(s, cuts, from, out, off);
    TailsFit(s, cuts, from);
    PlaceholderAt(out, off + (cuts[0].start - from));
    MergeCutCuts(s, cuts[0], from, out, off, off + (cuts[0].start - from), locs, rest);
    AddsCut(s, cuts, from, off, locs, rest);
  }

  lemma AddsCut(s: string, cuts: seq<Loc>, from: nat, off: nat, locs: seq<Loc>, rest: seq<Loc>)
    requires cuts != [] && from <= cuts[0].start < cuts[0].end
    requires Adds(s, cuts[1..], cuts[0].end, off + (cuts[0].start - from) + 10, locs, rest)
    ensures Adds(s, cuts, from, off, locs, [cuts[0]] + rest)
  {
    hide Lifted;
    var merged := [cuts[0]] + rest;
    forall x | x in merged
      ensures x in cuts || Lifted(s, cuts, from, off, locs, x)
    {
      if x !in cuts {
        assert x in rest && x !in cuts[1..];
        LiftedBehind(s, cuts, from, off, locs, x);
      }
    }
    forall n | 0 <= n < |locs|
      ensures AddsFor(s, cuts, from, off, locs[n], merged)
    {
      assert AddsFor(s, cuts[1..], cuts[0].end, off + (cuts[0].start - from) + 10, locs[n], rest);
      var x :| x in rest && Lifted(s, cuts[1..], cuts[0].end, off + (cuts[0].start - from) + 10, [locs[n]], x);
      LiftedBehind(s, cuts, from, off, [locs[n]], x);
      assert x in merged;
    }
    forall x | x in cuts
      ensures x in merged
    {
      assert x == cuts[0] || x in cuts[1..];
    }
  }

  lemma MergeCutCuts(s: string, l: Loc, from: nat, out: string, off: nat, k: nat, locs: seq<Loc>, rest: seq<Loc>)
    requires from <= l.start < l.end <= |s| && InOrder(s, rest, l.end)
    requires InOrder(out, locs, off) && locs != [] && off <= k && k + 10 <= |out| && InOrder(out, locs, k + 10)
    requires out[off..k] == s[from..l.start] && out[k..k + 10] == PLACEHOLDER
    requires Cut(s, rest, l.end) == Cut(out, locs, k + 10)
    ensures InOrder(s, [l] + rest, from) && Cut(s, [l] + rest, from) == Cut(out, locs, off)
  {
    hide Cut, InOrder;
    OneCutMore(s, l, rest, from);
    CutFromEarlier(out, locs, off, k + 10);
    SliceSplit(out, off, k, k + 10);
  }

  lemma OneCutMore(s: string, l: Loc, rest: seq<Loc>, from: nat)
    requires from <= l.start < l.end <= |s| && InOrder(s, rest, l.end)
    ensures InOrder(s, [l] + rest, from) && Cut(s, [l] + rest, from) == s[from..l.start] + PLACEHOLDER + Cut(s, rest, l.end)
  {
    assert ([l] + rest)[1..] == rest;
  }

  lemma CutFromEarlier(s: string, locs: seq<Loc>, from: nat, k: nat)
    requires InOrder(s, locs, from) && InOrder(s, locs, k) && from <= k && locs != []
    ensures k <= |s| && Cut(s, locs, from) == s[from..k] + Cut(s, locs, k)
  {
    hide Cut, InOrder;
    CutIs(s, locs, from);
    CutIs(s, locs, k);
    SliceSplit(s, from, k, locs[0].start);
    Assoc(s[from..k], s[k..locs[0].start], PLACEHOLDER + Cut(s, locs[1..], locs[0].end));
  }

  lemma SliceSplit(s: string, a: nat, b: nat, c: nat)
    requires a <= b <= c <= |s|
    ensures s[a..c] == s[a..b] + s[b..c]
  {
  }

  lemma CutIs(s: string, locs: seq<Loc>, from: nat)
    requires InOrder(s, locs, from) && locs != []
    ensures from <= locs[0].start < locs[0].end <= |s| && InOrder(s, locs[1..], locs[0].end)
    ensures Cut(s, locs, from) == s[from..locs[0].start] + (PLACEHOLDER + Cut(s, locs[1..], locs[0].end))
  {
    Assoc(s[from..locs[0].start], PLACEHOLDER, Cut(s, locs[1..], locs[0].end));
  }

  lemma PlaceholderAt(out: string, k: nat)
    requires k + 10 <= |out|
    requires out[k] == '<' && out[k + 1..k + 9] == "redacted" && out[k + 9] == '>'
    ensures out[k..k + 10] == PLACEHOLDER
  {
    assert out[k..k + 10] == [out[k]] + out[k + 1..k + 9] + [out[k + 9]];
  }

  // ---------------------------------------------------------------- what is cut, and why

  /** A labelled secret, or an opaque run standing alone. */
  datatype Shape = Secret(p: Pattern) | Opaque

  /** The order in which the shapes are looked for. */
  function Rank(k: Shape): nat {
    match k
    case Secret(Bearer) => 0
    case Secret(Refresh) => 1
    case Secret(Access) => 2
    case Secret(AuthToken) => 3
    case Secret(Oauth) => 4
    case Opaque => 5
  }

  /** A stretch of a shape looked for earlier overlaps `[i, j)`. */
  ghost predicate Touched(kinds: map<Loc, Shape>, r: nat, i: nat, j: nat) {
    exists l :: l in kinds && Rank(kinds[l]) < r && l.start < j && i < l.end
  }

  /** The stretch is a longest match of its pattern in `s`, as far as earlier shapes have left it. */
  ghost predicate IsLongest(s: string, kinds: map<Loc, Shape>, p: Pattern, l: Loc) {
    && Matches(p, s, l.start, l.end) && !Touched(kinds, Rank(Secret(p)), l.start, l.end)
    && forall j: nat :: Matches(p, s, l.start, j) && !Touched(kinds, Rank(Secret(p)), l.start, j) ==> j <= l.end
  }

  /** A stretch cut for the pattern starts at `i` or reaches over it. */
  ghost predicate Taken(kinds: map<Loc, Shape>, p: Pattern, i: nat) {
    exists l :: l in kinds && kinds[l] == Secret(p) && l.start <= i < l.end
  }

  /** What is cut for a pattern are matches, and no match is left that earlier shapes have not touched. */
  ghost predicate PatternIsCut(s: string, kinds: map<Loc, Shape>, p: Pattern) {
    && (forall l :: l in kinds && kinds[l] == Secret(p) ==> IsLongest(s, kinds, p, l))
    && (forall i: nat, j: nat :: Matches(p, s, i, j) ==> Touched(kinds, Rank(Secret(p)), i, j) || Taken(kinds, p, i))
  }

  /** A letter or digit at `i`, unless a labelled secret ends or starts there. */
  ghost predicate AlnumBefore(s: string, kinds: map<Loc, Shape>, i: nat) {
    0 < i <= |s| && IsAlnum(s[i - 1]) && !exists l :: l in kinds && kinds[l].Secret? && l.end == i
  }

  ghost predicate AlnumBehind(s: string, kinds: map<Loc, Shape>, j: nat) {
    j < |s| && IsAlnum(s[j]) && !exists l :: l in kinds && kinds[l].Secret? && l.start == j
  }

  /** A run of 30 or more lower-case alphanumerics that stands alone once the labelled secrets are cut. */
  ghost predicate StandsAlone(s: string, kinds: map<Loc, Shape>, i: nat, j: nat) {
    && i + 30 <= j <= |s| && (forall x :: i <= x < j ==> IsLower(s[x]))
    && !Touched(kinds, Rank(Opaque), i, j)
    && !AlnumBefore(s, kinds, i) && !AlnumBehind(s, kinds, j)
  }

  ghost predicate RunsAreCut(s: string, kinds: map<Loc, Shape>) {
    forall i: nat, j: nat :: Loc(i, j) in kinds && kinds[Loc(i, j)] == Opaque <==> StandsAlone(s, kinds, i, j)
  }

  /** The cuts, in order and disjoint, with the shape each one was made for. */
  ghost predicate Made(s: string, cuts: seq<Loc>, kinds: map<Loc, Shape>, r: nat) {
    && InOrder(s, cuts, 0) && (forall l :: l in cuts <==> l in kinds)
    && forall l :: l in kinds ==> Rank(kinds[l]) < r
  }

  lemma UntouchedIsGap(s: string, cuts: seq<Loc>, kinds: map<Loc, Shape>, r: nat, i: nat, j: nat)
    requires Made(s, cuts, kinds, r)
    ensures InGap(cuts, i, j) <==> !Touched(kinds, r, i, j)
  {
    if !InGap(cuts, i, j) {
      var n :| 0 <= n < |cuts| && cuts[n].start < j && i < cuts[n].end;
      assert cuts[n] in cuts;
    }
    if Touched(kinds, r, i, j) {
      var l :| l in kinds && Rank(kinds[l]) < r && l.start < j && i < l.end;
      assert l in cuts;
    }
  }

  // ---------------------------------------------------------------- one labelled pass

  lemma {:induction false} LocsAreLeftmost(p: Pattern, s: string, from: nat, i: nat, j: nat)
    requires from <= i && Matches(p, s, i, j)
    ensures from <= |s| && exists n :: 0 <= n < |Locs(p, s, from)| && Locs(p, s, from)[n].start <= i < Locs(p, s, from)[n].end
    decreases |s| - from
  {
    hide IsSecret, MayStart, MatchEnd, InOrder;
    MatchIsNonempty(p, s, i, j);
    MatchEndIsLongest(p, s, from);
    match MatchEnd(p, s, from)
    case None =>
      LocsAreLeftmost(p, s, from + 1, i, j);
      assert Locs(p, s, from) == Locs(p, s, from + 1);
    case Some(e) =>
      assert Locs(p, s, from)[0] == Loc(from, e);
      if i >= e {
        LocsAreLeftmost(p, s, e, i, j);
        var n :| 0 <= n < |Locs(p, s, e)| && Locs(p, s, e)[n].start <= i < Locs(p, s, e)[n].end;
        assert Locs(p, s, from)[n + 1] == Locs(p, s, e)[n];
      }
  }

  lemma {:induction false} LocsAreLongest(p: Pattern, s: string, from: nat)
    requires from <= |s|
    ensures forall n :: 0 <= n < |Locs(p, s, from)| ==>
      Locs(p, s, from)[n].start <= |s| && MatchEnd(p, s, Locs(p, s, from)[n].start) == Some(Locs(p, s, from)[n].end)
    decreases |s| - from
  {
    hide MatchEnd, InOrder;
    if from < |s| {
      match MatchEnd(p, s, from)
      case None => LocsAreLongest(p, s, from + 1);
      case Some(e) => LocsAreLongest(p, s, e);
    }
  }

  lemma LocsAreForeign(p: Pattern, s: string)
    ensures Foreigners(s, Locs(p, s, 0))
    ensures forall n :: 0 <= n < |Locs(p, s, 0)| ==> Matches(p, s, Locs(p, s, 0)[n].start, Locs(p, s, 0)[n].end)
  {
    hide Locs, Foreign, IsSecret;
    LocsAreMatches(p, s, 0);
    forall n | 0 <= n < |Locs(p, s, 0)|
      ensures Foreign(s[Locs(p, s, 0)[n].start..Locs(p, s, 0)[n].end])
    {
      SecretIsForeign(p, s[Locs(p, s, 0)[n].start..Locs(p, s, 0)[n].end]);
    }
  }

  /** What matches between the cuts matches where it ends up, and the other way round. */
  lemma MatchMoves(p: Pattern, s: string, cuts: seq<Loc>, out: string, i: nat, j: nat)
    requires IsCut(s, cuts, 0, out, 0) && i < j <= |s| && InGap(cuts, i, j) && (p.Bearer? ==> cuts == [])
    ensures
      var x := Place(cuts, 0, 0, i);
      0 <= x && (Matches(p, s, i, j) <==> Matches(p, out, x, x + (j - i)))
  {
    hide IsSecret;
    GapIsPlaced(s, cuts, 0, out, 0, i, j);
    if p.Bearer? {
      IsCutPlain(s, 0, out, 0);
      assert out[0..] == out && s[0..] == s;
    }
  }

  lemma {:induction false} PlaceAlong(s: string, cuts: seq<Loc>, from: nat, off: int, i: nat, j: nat, k: nat)
    requires InOrder(s, cuts, from) && i <= k < j && InGap(cuts, i, j)
    ensures Place(cuts, from, off, k) == Place(cuts, from, off, i) + (k - i)
    decreases |cuts|
  {
    if cuts != [] {
      GapOfTail(s, cuts, from, i, j);
      if cuts[0].start <= i {
        PlaceAlong(s, cuts[1..], cuts[0].end, off + (cuts[0].start - from) + 10, i, j, k);
      }
    }
  }

  lemma PartOfGap(cuts: seq<Loc>, i: nat, j: nat, k: nat)
    requires InGap(cuts, i, j) && i <= k < j
    ensures InGap(cuts, k, k + 1)
  {
  }

  /** Where stretches between the cuts end up, one starts inside another exactly if it does here. */
  lemma PlacedInside(s: string, cuts: seq<Loc>, a: nat, e: nat, i: nat)
    requires InOrder(s, cuts, 0) && a < e <= |s| && InGap(cuts, a, e) && InGap(cuts, i, i + 1)
    ensures
      var x := Place(cuts, 0, 0, a);
      x <= Place(cuts, 0, 0, i) < x + (e - a) <==> a <= i < e
  {
    hide Place, InOrder, InGap;
    PartOfGap(cuts, a, e, a);
    PartOfGap(cuts, a, e, e - 1);
    PlaceAlong(s, cuts, 0, 0, a, e, e - 1);
    if a <= i < e {
      PlaceAlong(s, cuts, 0, 0, a, e, i);
    } else if i < a {
      PlaceIsMonotone(s, cuts, 0, 0, i, a);
    } else if i >= e {
      PlaceIsMonotone(s, cuts, 0, 0, e - 1, i);
    }
  }

  /** The stretches of one more shape join the cuts. */
  ghost predicate Joins(cuts: seq<Loc>, kinds: map<Loc, Shape>, k: Shape, merged: seq<Loc>, kinds': map<Loc, Shape>) {
    && (forall l :: l in kinds' <==> l in merged)
    && (forall l :: l in kinds ==> l in merged)
    && (forall l :: l in merged ==> kinds'[l] == if l in kinds then kinds[l] else k)
  }

  lemma JoinsMake(s: string, cuts: seq<Loc>, kinds: map<Loc, Shape>, k: Shape, merged: seq<Loc>) returns (kinds': map<Loc, Shape>)
    requires Made(s, cuts, kinds, Rank(k)) && InOrder(s, merged, 0) && forall l :: l in cuts ==> l in merged
    ensures Joins(cuts, kinds, k, merged, kinds') && Made(s, merged, kinds', Rank(k) + 1)
  {
    hide InOrder;
    kinds' := map l | l in merged :: if l in kinds then kinds[l] else k;
  }

  /** What was cut for earlier shapes is seen as before. */
  lemma JoinedTouched(cuts: seq<Loc>, kinds: map<Loc, Shape>, k: Shape, merged: seq<Loc>, kinds': map<Loc, Shape>, r: nat, i: nat, j: nat)
    requires Joins(cuts, kinds, k, merged, kinds') && r <= Rank(k)
    ensures Touched(kinds', r, i, j) <==> Touched(kinds, r, i, j)
  {
  }

  lemma JoinedPattern(s: string, cuts: seq<Loc>, kinds: map<Loc, Shape>, k: Shape, merged: seq<Loc>, kinds': map<Loc, Shape>, q: Pattern)
    requires Joins(cuts, kinds, k, merged, kinds') && Rank(Secret(q)) < Rank(k) && PatternIsCut(s, kinds, q)
    ensures PatternIsCut(s, kinds', q)
  {
    hide Matches, Touched;
    forall i, j {
      JoinedTouched(cuts, kinds, k, merged, kinds', Rank(Secret(q)), i, j);
    }
    forall l
      ensures l in kinds' && kinds'[l] == Secret(q) <==> l in kinds && kinds[l] == Secret(q)
    {
    }
    forall i
      ensures Taken(kinds', q, i) <==> Taken(kinds, q, i)
    {
    }
  }

  /** A new stretch is the longest match where it starts. */
  lemma NewIsLongest(p: Pattern, s: string, cuts: seq<Loc>, kinds: map<Loc, Shape>, out: string, l: Loc)
    requires Made(s, cuts, kinds, Rank(Secret(p))) && IsCut(s, cuts, 0, out, 0) && (p.Bearer? ==> cuts == [])
    requires Lifted(s, cuts, 0, 0, Locs(p, out, 0), l)
    ensures IsLongest(s, kinds, p, l)
  {
    hide Locs, Matches, IsCut, Place, InOrder, InGap, Touched, Lifted, Foreigners, MatchEnd;
    LocsAreForeign(p, out);
    LocsAreLongest(p, out, 0);
    var n := LiftedFrom(s, cuts, Locs(p, out, 0), l);
    var m := Locs(p, out, 0)[n];
    LiftedImage(s, cuts, m, l);
    MatchEndIsLongest(p, out, m.start);
    UntouchedIsGap(s, cuts, kinds, Rank(Secret(p)), l.start, l.end);
    MatchMoves(p, s, cuts, out, l.start, l.end);
    forall j: nat | Matches(p, s, l.start, j) && !Touched(kinds, Rank(Secret(p)), l.start, j)
      ensures j <= l.end
    {
      NoneIsLonger(p, s, cuts, kinds, out, l, m, j);
    }
  }

  lemma LiftedFrom(s: string, cuts: seq<Loc>, locs: seq<Loc>, l: Loc) returns (n: nat)
    requires Lifted(s, cuts, 0, 0, locs, l)
    ensures n < |locs| && Lifted(s, cuts, 0, 0, [locs[n]], l)
  {
    hide Place, InGap;
    n :| 0 <= n < |locs| && Image(cuts, 0, 0, l) == (locs[n].start, locs[n].end);
    assert [locs[n]][0] == locs[n];
  }

  lemma NoneIsLonger(p: Pattern, s: string, cuts: seq<Loc>, kinds: map<Loc, Shape>, out: string, l: Loc, m: Loc, j: nat)
    requires Made(s, cuts, kinds, Rank(Secret(p))) && IsCut(s, cuts, 0, out, 0) && (p.Bearer? ==> cuts == [])
    requires Place(cuts, 0, 0, l.start) == m.start && m.end - m.start == l.end - l.start
    requires forall k: nat :: Matches(p, out, m.start, k) ==> k <= m.end
    requires Matches(p, s, l.start, j) && !Touched(kinds, Rank(Secret(p)), l.start, j)
    ensures j <= l.end
  {
    hide Matches, IsCut, Place, InOrder, InGap, Touched;
    MatchFits(p, s, l.start, j);
    UntouchedIsGap(s, cuts, kinds, Rank(Secret(p)), l.start, j);
    MatchMoves(p, s, cuts, out, l.start, j);
  }

  lemma MatchFits(p: Pattern, s: string, i: nat, j: nat)
    requires Matches(p, s, i, j)
    ensures i < j <= |s|
  {
    MatchIsNonempty(p, s, i, j);
  }

  /** Every match that earlier shapes have left is taken. */
  lemma MatchIsTaken(p: Pattern, s: string, cuts: seq<Loc>, kinds: map<Loc, Shape>, out: string, merged: seq<Loc>, i: nat, j: nat)
    returns (l: Loc)
    requires Made(s, cuts, kinds, Rank(Secret(p))) && IsCut(s, cuts, 0, out, 0) && (p.Bearer? ==> cuts == [])
    requires Adds(s, cuts, 0, 0, Locs(p, out, 0), merged)
    requires Matches(p, s, i, j) && !Touched(kinds, Rank(Secret(p)), i, j)
    ensures l in merged && l !in cuts && l.start <= i < l.end
  {
    hide Locs, Matches, IsCut, Place, InOrder, InGap, Touched, Adds;
    MatchFits(p, s, i, j);
    CutFits(s, cuts, 0, out, 0);
    UntouchedIsGap(s, cuts, kinds, Rank(Secret(p)), i, j);
    MatchMoves(p, s, cuts, out, i, j);
    var x := Place(cuts, 0, 0, i);
    LocsAreLeftmost(p, out, 0, x, x + (j - i));
    var n :| 0 <= n < |Locs(p, out, 0)| && Locs(p, out, 0)[n].start <= x < Locs(p, out, 0)[n].end;
    l := AddedFor(s, cuts, Locs(p, out, 0), merged, n);
    PartOfGap(cuts, i, j, i);
    PlacedInside(s, cuts, l.start, l.end, i);
  }

  lemma LiftedImage(s: string, cuts: seq<Loc>, m: Loc, l: Loc)
    requires Lifted(s, cuts, 0, 0, [m], l)
    ensures l.start < l.end <= |s| && InGap(cuts, l.start, l.end)
    ensures Place(cuts, 0, 0, l.start) == m.start && m.end - m.start == l.end - l.start
  {
    hide Place, InGap;
  }

  lemma NewIsNotOld(s: string, cuts: seq<Loc>, locs: seq<Loc>, l: Loc)
    requires Lifted(s, cuts, 0, 0, locs, l)
    ensures l !in cuts
  {
    hide Place;
  }

  lemma PassCuts(p: Pattern, s: string, cuts: seq<Loc>, kinds: map<Loc, Shape>, out: string, merged: seq<Loc>, kinds': map<Loc, Shape>)
    requires Made(s, cuts, kinds, Rank(Secret(p))) && IsCut(s, cuts, 0, out, 0) && (p.Bearer? ==> cuts == [])
    requires Adds(s, cuts, 0, 0, Locs(p, out, 0), merged) && Joins(cuts, kinds, Secret(p), merged, kinds')
    ensures PatternIsCut(s, kinds', p)
  {
    hide Locs, Matches, IsCut, Lifted, Touched;
    forall i, j {
      JoinedTouched(cuts, kinds, Secret(p), merged, kinds', Rank(Secret(p)), i, j);
    }
    forall l | l in kinds' && kinds'[l] == Secret(p)
      ensures IsLongest(s, kinds', p, l)
    {
      assert l !in kinds;
      NewIsLongest(p, s, cuts, kinds, out, l);
    }
    forall i: nat, j: nat | Matches(p, s, i, j) && !Touched(kinds', Rank(Secret(p)), i, j)
      ensures Taken(kinds', p, i)
    {
      var l := MatchIsTaken(p, s, cuts, kinds, out, merged, i, j);
    }
  }

  /** One labelled pass adds its matches to the cuts. */
  lemma PassTraces(p: Pattern, s: string, cuts: seq<Loc>, kinds: map<Loc, Shape>) returns (merged: seq<Loc>, kinds': map<Loc, Shape>)
    requires Made(s, cuts, kinds, Rank(Secret(p)))
    ensures Made(s, merged, kinds', Rank(Secret(p)) + 1) && Cut(s, merged, 0) == Pass(p, Cut(s, cuts, 0))
    ensures Joins(cuts, kinds, Secret(p), merged, kinds') && PatternIsCut(s, kinds', p)
  {
    hide Locs, Cut, PatternIsCut, Joins, Adds, Foreigners, InOrder;
    var out := Cut(s, cuts, 0);
    LocsAreForeign(p, out);
    WholeIsCut(s, cuts);
    merged := MergeCuts(s, cuts, 0, out, 0, Locs(p, out, 0));
    MergedHasOld(s, cuts, Locs(p, out, 0), merged);
    kinds' := JoinsMake(s, cuts, kinds, Secret(p), merged);
    FirstFindsAll(s, cuts, kinds, p);
    PassCuts(p, s, cuts, kinds, out, merged, kinds');
  }

  lemma WholeIsCut(s: string, cuts: seq<Loc>)
    requires InOrder(s, cuts, 0)
    ensures IsCut(s, cuts, 0, Cut(s, cuts, 0), 0)
  {
    hide Cut;
    var out := Cut(s, cuts, 0);
    assert out[0..] == out;
  }

  lemma MergedHasOld(s: string, cuts: seq<Loc>, locs: seq<Loc>, merged: seq<Loc>)
    requires Adds(s, cuts, 0, 0, locs, merged)
    ensures forall l :: l in cuts ==> l in merged
  {
    hide Lifted;
  }

  /** The bearer pass comes first: nothing has been cut. */
  lemma FirstFindsAll(s: string, cuts: seq<Loc>, kinds: map<Loc, Shape>, p: Pattern)
    requires Made(s, cuts, kinds, Rank(Secret(p)))
    ensures p.Bearer? ==> cuts == []
  {
    hide InOrder;
    assert cuts != [] ==> cuts[0] in cuts;
  }

  // ---------------------------------------------------------------- the last pass

  lemma TokensAreForeign(s: string)
    ensures Foreigners(s, Tokens(s))
    ensures forall n :: 0 <= n < |Tokens(s)| ==> Exposed(s, Tokens(s)[n].start, Tokens(s)[n].end)
  {
    hide Tokens, Foreign, IsLower;
    TokensAreRuns(s);
    forall n | 0 <= n < |Tokens(s)|
      ensures Foreign(s[Tokens(s)[n].start..Tokens(s)[n].end])
    {
      LowerIsForeign(s[Tokens(s)[n].start..Tokens(s)[n].end]);
    }
  }

  lemma ExposedIsToken(s: string, i: nat, j: nat) returns (n: nat)
    requires Exposed(s, i, j)
    ensures n < |Tokens(s)| && Tokens(s)[n] == Loc(i, j)
  {
    hide Runs, Unguarded, InOrder;
    ExposedIsRun(s, 0, i, j);
    var k :| 0 <= k < |Runs(s, 0)| && Runs(s, 0)[k] == Loc(i, j);
    UnguardedKeeps(s, Runs(s, 0), 0, Loc(i, j));
    n :| 0 <= n < |Tokens(s)| && Tokens(s)[n] == Loc(i, j);
  }

  /** A run between the cuts stands alone where it ends up, exactly if its neighbours here do not disturb it or are cut. */
  lemma ExposedMoves(s: string, cuts: seq<Loc>, out: string, i: nat, j: nat)
    requires IsCut(s, cuts, 0, out, 0) && i < j <= |s| && InGap(cuts, i, j)
    ensures
      var x := Place(cuts, 0, 0, i);
      0 <= x && (Exposed(out, x, x + (j - i)) <==>
        && i + 30 <= j && (forall k :: i <= k < j ==> IsLower(s[k]))
        && (i > 0 && !CutEnds(cuts, i) ==> !IsAlnum(s[i - 1]))
        && (j < |s| && !CutStarts(cuts, j) ==> !IsAlnum(s[j])))
  {
    GapIsPlaced(s, cuts, 0, out, 0, i, j);
    hide IsCut, Place, InGap, IsLower, CutEnds, CutStarts;
    var x := Place(cuts, 0, 0, i);
    SameRun(s, i, j, out, x, x + (j - i));
  }

  lemma SameRun(s: string, i: nat, j: nat, out: string, x: nat, y: nat)
    requires i <= j <= |s| && x <= y <= |out| && s[i..j] == out[x..y]
    ensures (forall k :: i <= k < j ==> IsLower(s[k])) <==> (forall k :: x <= k < y ==> IsLower(out[k]))
  {
    hide IsLower;
    assert |s[i..j]| == |out[x..y]|;
    forall k | i <= k < j
      ensures s[k] == out[x + (k - i)]
    {
      assert s[k] == s[i..j][k - i] && out[x + (k - i)] == out[x..y][k - i];
    }
    forall k | x <= k < y
      ensures out[k] == s[i + (k - x)]
    {
      assert out[k] == out[x..y][k - x] && s[i + (k - x)] == s[i..j][k - x];
    }
  }

  lemma CutsAreSecrets(s: string, cuts: seq<Loc>, kinds: map<Loc, Shape>, merged: seq<Loc>, kinds': map<Loc, Shape>, i: nat)
    requires Made(s, cuts, kinds, Rank(Opaque)) && Joins(cuts, kinds, Opaque, merged, kinds')
    ensures CutEnds(cuts, i) <==> exists l :: l in kinds' && kinds'[l].Secret? && l.end == i
    ensures CutStarts(cuts, i) <==> exists l :: l in kinds' && kinds'[l].Secret? && l.start == i
  {
    hide InOrder;
    if n :| 0 <= n < |cuts| && cuts[n].end == i {
      assert cuts[n] in cuts && cuts[n] in kinds && kinds[cuts[n]].Secret?;
    }
    if n :| 0 <= n < |cuts| && cuts[n].start == i {
      assert cuts[n] in cuts && cuts[n] in kinds && kinds[cuts[n]].Secret?;
    }
    assert forall l :: l in kinds' && kinds'[l].Secret? ==> l in cuts;
  }

  lemma AloneMoves(s: string, cuts: seq<Loc>, kinds: map<Loc, Shape>, out: string, merged: seq<Loc>, kinds': map<Loc, Shape>, i: nat, j: nat)
    requires Made(s, cuts, kinds, Rank(Opaque)) && IsCut(s, cuts, 0, out, 0) && Joins(cuts, kinds, Opaque, merged, kinds')
    requires i < j <= |s| && InGap(cuts, i, j)
    ensures
      var x := Place(cuts, 0, 0, i);
      0 <= x && (Exposed(out, x, x + (j - i)) <==> StandsAlone(s, kinds', i, j))
  {
    ExposedMoves(s, cuts, out, i, j);
    UntouchedIsGap(s, cuts, kinds, Rank(Opaque), i, j);
    JoinedTouched(cuts, kinds, Opaque, merged, kinds', Rank(Opaque), i, j);
    CutsAreSecrets(s, cuts, kinds, merged, kinds', i);
    CutsAreSecrets(s, cuts, kinds, merged, kinds', j);
    hide Made, IsCut, Joins, InGap, Place, Touched, Exposed, CutEnds, CutStarts, IsLower;
  }

  lemma AloneIsCut(s: string, cuts: seq<Loc>, kinds: map<Loc, Shape>, out: string, merged: seq<Loc>, kinds': map<Loc, Shape>, i: nat, j: nat)
    requires Made(s, cuts, kinds, Rank(Opaque)) && IsCut(s, cuts, 0, out, 0) && Joins(cuts, kinds, Opaque, merged, kinds')
    requires Adds(s, cuts, 0, 0, Tokens(out), merged) && StandsAlone(s, kinds', i, j)
    ensures Loc(i, j) in merged && Loc(i, j) !in cuts
  {
    AloneIsUntouched(s, kinds', i, j);
    hide Tokens, IsCut, Place, InGap, InOrder, Touched, StandsAlone, Exposed, Made, Joins, Adds;
    JoinedTouched(cuts, kinds, Opaque, merged, kinds', Rank(Opaque), i, j);
    UntouchedIsGap(s, cuts, kinds, Rank(Opaque), i, j);
    AloneMoves(s, cuts, kinds, out, merged, kinds', i, j);
    TokenIsCut(s, cuts, out, merged, i, j);
  }

  lemma AloneIsUntouched(s: string, kinds: map<Loc, Shape>, i: nat, j: nat)
    requires StandsAlone(s, kinds, i, j)
    ensures i < j <= |s| && !Touched(kinds, Rank(Opaque), i, j)
  {
  }

  lemma TokenIsCut(s: string, cuts: seq<Loc>, out: string, merged: seq<Loc>, i: nat, j: nat)
    requires IsCut(s, cuts, 0, out, 0) && Adds(s, cuts, 0, 0, Tokens(out), merged)
    requires i < j <= |s| && InGap(cuts, i, j)
    requires var x := Place(cuts, 0, 0, i); 0 <= x && Exposed(out, x, x + (j - i))
    ensures Loc(i, j) in merged && Loc(i, j) !in cuts
  {
    CutFits(s, cuts, 0, out, 0);
    var x := Place(cuts, 0, 0, i);
    hide Tokens, IsCut, Place, InGap, InOrder, Adds, Exposed;
    var n := ExposedIsToken(out, x, x + (j - i));
    ImageIsCut(s, cuts, Tokens(out), merged, n, i, j);
  }

  lemma ImageIsCut(s: string, cuts: seq<Loc>, locs: seq<Loc>, merged: seq<Loc>, n: nat, i: nat, j: nat)
    requires InOrder(s, cuts, 0) && Adds(s, cuts, 0, 0, locs, merged) && n < |locs|
    requires i < j <= |s| && InGap(cuts, i, j)
    requires locs[n].start == Place(cuts, 0, 0, i) && locs[n].end - locs[n].start == j - i
    ensures Loc(i, j) in merged && Loc(i, j) !in cuts
  {
    hide Place, InGap, InOrder, Adds;
    var l := AddedFor(s, cuts, locs, merged, n);
    PartOfGap(cuts, i, j, i);
    PartOfGap(cuts, l.start, l.end, l.start);
    PlaceOnce(s, cuts, i, l.start);
  }

  lemma AddedFor(s: string, cuts: seq<Loc>, locs: seq<Loc>, merged: seq<Loc>, n: nat) returns (l: Loc)
    requires Adds(s, cuts, 0, 0, locs, merged) && n < |locs|
    ensures l in merged && l !in cuts && l.start < l.end <= |s| && InGap(cuts, l.start, l.end)
    ensures Place(cuts, 0, 0, l.start) == locs[n].start && locs[n].end - locs[n].start == l.end - l.start
  {
    hide Place, InGap, Lifted;
    assert AddsFor(s, cuts, 0, 0, locs[n], merged);
    l :| l in merged && Lifted(s, cuts, 0, 0, [locs[n]], l);
    LiftedImage(s, cuts, locs[n], l);
    NewIsNotOld(s, cuts, [locs[n]], l);
  }

  lemma PlaceOnce(s: string, cuts: seq<Loc>, i: nat, k: nat)
    requires InOrder(s, cuts, 0) && InGap(cuts, i, i + 1) && InGap(cuts, k, k + 1)
    ensures i != k ==> Place(cuts, 0, 0, i) != Place(cuts, 0, 0, k)
  {
    hide Place, InGap, InOrder;
    if k < i {
      PlaceIsMonotone(s, cuts, 0, 0, k, i);
    } else if i < k {
      PlaceIsMonotone(s, cuts, 0, 0, i, k);
    }
  }

  lemma CutStandsAlone(s: string, cuts: seq<Loc>, kinds: map<Loc, Shape>, out: string, merged: seq<Loc>, kinds': map<Loc, Shape>, l: Loc)
    requires Made(s, cuts, kinds, Rank(Opaque)) && IsCut(s, cuts, 0, out, 0) && Joins(cuts, kinds, Opaque, merged, kinds')
    requires Lifted(s, cuts, 0, 0, Tokens(out), l)
    ensures StandsAlone(s, kinds', l.start, l.end)
  {
    hide Tokens, IsCut, Place, InGap, Lifted, StandsAlone, Exposed, Made, Joins, Foreigners;
    TokensAreForeign(out);
    var n := LiftedFrom(s, cuts, Tokens(out), l);
    LiftedImage(s, cuts, Tokens(out)[n], l);
    AloneMoves(s, cuts, kinds, out, merged, kinds', l.start, l.end);
  }

  lemma LastPassTraces(s: string, cuts: seq<Loc>, kinds: map<Loc, Shape>) returns (merged: seq<Loc>, kinds': map<Loc, Shape>)
    requires Made(s, cuts, kinds, Rank(Opaque))
    ensures Made(s, merged, kinds', Rank(Opaque) + 1) && Cut(s, merged, 0) == Standalone(Cut(s, cuts, 0))
    ensures Joins(cuts, kinds, Opaque, merged, kinds') && RunsAreCut(s, kinds')
  {
    hide Tokens, Cut, InOrder, Adds, Foreigners, Joins;
    var out := Cut(s, cuts, 0);
    TokensAreForeign(out);
    WholeIsCut(s, cuts);
    merged := MergeCuts(s, cuts, 0, out, 0, Tokens(out));
    MergedHasOld(s, cuts, Tokens(out), merged);
    kinds' := JoinsMake(s, cuts, kinds, Opaque, merged);
    RunsAreJoined(s, cuts, kinds, out, merged, kinds');
  }

  lemma RunsAreJoined(s: string, cuts: seq<Loc>, kinds: map<Loc, Shape>, out: string, merged: seq<Loc>, kinds': map<Loc, Shape>)
    requires Made(s, cuts, kinds, Rank(Opaque)) && IsCut(s, cuts, 0, out, 0) && Joins(cuts, kinds, Opaque, merged, kinds')
    requires Adds(s, cuts, 0, 0, Tokens(out), merged)
    ensures RunsAreCut(s, kinds')
  {
    hide Tokens, IsCut, InOrder, Lifted, StandsAlone;
    forall i: nat, j: nat
      ensures Loc(i, j) in kinds' && kinds'[Loc(i, j)] == Opaque <==> StandsAlone(s, kinds', i, j)
    {
      var l := Loc(i, j);
      assert l in kinds' && kinds'[l] == Opaque <==> l in merged && l !in cuts;
      if StandsAlone(s, kinds', i, j) {
        AloneIsCut(s, cuts, kinds, out, merged, kinds', i, j);
      } else if l in merged && l !in cuts {
        CutStandsAlone(s, cuts, kinds, out, merged, kinds', l);
      }
    }
  }

  // ---------------------------------------------------------------- the whole chokepoint

  /**
   What redaction cuts out of `s`, and why: for the patterns in their order the
   longest matches that earlier shapes leave, leftmost first, and then the runs
   that stand alone.
   */
  ghost predicate Explains(s: string, cuts: seq<Loc>, kinds: map<Loc, Shape>) {
    && InOrder(s, cuts, 0) && (forall l :: l in cuts <==> l in kinds)
    && (forall p :: PatternIsCut(s, kinds, p))
    && RunsAreCut(s, kinds)
  }

  /** The result is `s` with the placeholder in place of just those stretches. */
  lemma RedactedIsCut(s: string) returns (cuts: seq<Loc>, kinds: map<Loc, Shape>)
    ensures Explains(s, cuts, kinds) && Redacted(s) == Cut(s, cuts, 0)
  {
    hide PatternIsCut, RunsAreCut, Cut, Pass, Standalone, Joins, InOrder;
    NothingMade(s);
    var c1, k1 := PassTraces(Bearer, s, [], map[]);
    var c2, k2 := PassTraces(Refresh, s, c1, k1);
    var c3, k3 := PassTraces(Access, s, c2, k2);
    var c4, k4 := PassTraces(AuthToken, s, c3, k3);
    var c5, k5 := PassTraces(Oauth, s, c4, k4);
    cuts, kinds := LastPassTraces(s, c5, k5);
    JoinedPattern(s, c1, k1, Secret(Refresh), c2, k2, Bearer);
    JoinedPattern(s, c2, k2, Secret(Access), c3, k3, Bearer);
    JoinedPattern(s, c2, k2, Secret(Access), c3, k3, Refresh);
    JoinedPattern(s, c3, k3, Secret(AuthToken), c4, k4, Bearer);
    JoinedPattern(s, c3, k3, Secret(AuthToken), c4, k4, Refresh);
    JoinedPattern(s, c3, k3, Secret(AuthToken), c4, k4, Access);
    JoinedPattern(s, c4, k4, Secret(Oauth), c5, k5, Bearer);
    JoinedPattern(s, c4, k4, Secret(Oauth), c5, k5, Refresh);
    JoinedPattern(s, c4, k4, Secret(Oauth), c5, k5, Access);
    JoinedPattern(s, c4, k4, Secret(Oauth), c5, k5, AuthToken);
    forall p
      ensures PatternIsCut(s, kinds, p)
    {
      assert PatternIsCut(s, k5, p) by {
        match p {
          case Bearer =>
          case Refresh =>
          case Access =>
          case AuthToken =>
          case Oauth =>
        }
      }
      JoinedPattern(s, c5, k5, Opaque, cuts, kinds, p);
    }
  }

  lemma NothingMade(s: string)
    ensures Made(s, [], map[], 0) && Cut(s, [], 0) == s
  {
    CutOfNothing(s, 0);
    assert s[0..] == s;
  }

  ghost predicate Covered(cuts: seq<Loc>, i: nat, j: nat) {
    exists l :: l in cuts && l.start <= i && j <= l.end
  }

  /** A cut for the pattern starts in front of `i` and ends inside `[i, j)`. */
  ghost predicate Swallowed(kinds: map<Loc, Shape>, p: Pattern, i: nat, j: nat) {
    exists l :: l in kinds && kinds[l] == Secret(p) && l.start < i < l.end < j
  }

  /** Every match in `s` is cut as a whole, unless an earlier shape overlaps it or the value of a match further left ends in it. */
  lemma MatchesAreCut(s: string, cuts: seq<Loc>, kinds: map<Loc, Shape>, p: Pattern, i: nat, j: nat)
    requires Explains(s, cuts, kinds) && Matches(p, s, i, j)
    ensures Covered(cuts, i, j) || Touched(kinds, Rank(Secret(p)), i, j) || Swallowed(kinds, p, i, j)
  {
    hide Matches, InOrder, RunsAreCut, Touched;
    assert PatternIsCut(s, kinds, p);
    if !Touched(kinds, Rank(Secret(p)), i, j) {
      var l :| l in kinds && kinds[l] == Secret(p) && l.start <= i < l.end;
      assert l in cuts && IsLongest(s, kinds, p, l);
    }
  }

  // ---------------------------------------------------------------- bearer tokens

  /** A bearer token inside which another starts, as in `bearer x.bearer y`. */
  ghost predicate BearerInBearer(s: string) {
    exists a: nat, e: nat, i: nat, j: nat :: Matches(Bearer, s, a, e) && Matches(Bearer, s, i, j) && a < i < e
  }

  /** The second one goes on where the first one ends: white space follows the keyword, which no value holds. */
  lemma InnerBearerGoesOn(s: string, a: nat, e: nat, i: nat, j: nat)
    requires Matches(Bearer, s, a, e) && Matches(Bearer, s, i, j) && a < i < e
    ensures e <= i + 6 && e < j
  {
    var k := BearerShape(s, a, e);
    var k' := BearerShape(s, i, j);
    assert Folds(s[i], "bearer"[0]) && IsWhite(s[i + 6]);
    assert i - a < 6 ==> Folds(s[a + (i - a)], "bearer"[i - a]);
  }

  /** The keyword, white space up to `k`, and the value. */
  lemma BearerShape(s: string, i: nat, j: nat) returns (k: nat)
    requires Matches(Bearer, s, i, j)
    ensures i + 7 <= k < j <= |s| && forall x :: 0 <= x < 6 ==> Folds(s[i + x], "bearer"[x])
    ensures (forall x :: i + 6 <= x < k ==> IsWhite(s[x])) && forall x :: k <= x < j ==> IsValue(Bearer, s[x])
  {
    hide IsValue, IsWhite, IsHead, Folds;
    var h, m :| IsSecretAt(Bearer, s[i..j], h, m);
    KeywordStarts(s, i, j, h);
    k := i + m;
    assert forall x :: i <= x < j ==> s[x] == s[i..j][x - i];
  }

  lemma KeywordStarts(s: string, i: nat, j: nat, h: nat)
    requires i <= j <= |s| && h <= j - i && IsHead(Bearer, s[i..j][..h])
    ensures h == 6 && forall x :: 0 <= x < 6 ==> Folds(s[i + x], "bearer"[x])
  {
    assert FoldsTo(s[i..j][..h], "bearer");
    forall x | 0 <= x < 6
      ensures Folds(s[i + x], "bearer"[x])
    {
      assert s[i..j][..h][x] == s[i + x];
    }
  }

  lemma {:induction false} CutsAreApart(s: string, cuts: seq<Loc>, from: nat, l: Loc, m: Loc, i: nat)
    requires InOrder(s, cuts, from) && l in cuts && m in cuts && l.start <= i < l.end && m.start <= i < m.end
    ensures l == m
  {
    TailsFit(s, cuts, from);
    if l != cuts[0] && m != cuts[0] {
      CutsAreApart(s, cuts[1..], cuts[0].end, l, m, i);
    }
  }

  lemma BearerIsTaken(s: string, cuts: seq<Loc>, kinds: map<Loc, Shape>, i: nat, j: nat) returns (l: Loc)
    requires Explains(s, cuts, kinds) && Matches(Bearer, s, i, j)
    ensures l in cuts && l.start <= i < l.end && Matches(Bearer, s, l.start, l.end) && (l.start == i ==> j <= l.end)
  {
    hide Matches, InOrder, RunsAreCut;
    assert PatternIsCut(s, kinds, Bearer) && !Touched(kinds, 0, i, j);
    l :| l in kinds && kinds[l] == Secret(Bearer) && l.start <= i < l.end;
  }

  /** Of two matches the first of which holds the start of the second, one is not covered. */
  lemma OneIsUncovered(s: string, cuts: seq<Loc>, kinds: map<Loc, Shape>, a: nat, e: nat, i: nat, j: nat)
    requires Explains(s, cuts, kinds) && Matches(Bearer, s, a, e) && Matches(Bearer, s, i, j) && a < i < e
    ensures !Covered(cuts, a, e) || !Covered(cuts, i, j)
  {
    hide Matches, InOrder, RunsAreCut, PatternIsCut;
    MatchFits(Bearer, s, a, e);
    MatchFits(Bearer, s, i, j);
    var l := BearerIsTaken(s, cuts, kinds, a, e);
    if l.start == a {
      InnerBearerGoesOn(s, l.start, l.end, i, j);
      NotCoveredBy(s, cuts, l, i, j);
    } else {
      InnerBearerGoesOn(s, l.start, l.end, a, e);
      NotCoveredBy(s, cuts, l, a, e);
    }
  }

  lemma NotCoveredBy(s: string, cuts: seq<Loc>, l: Loc, i: nat, j: nat)
    requires InOrder(s, cuts, 0) && l in cuts && l.start <= i < l.end < j
    ensures !Covered(cuts, i, j)
  {
    hide InOrder;
    forall m | m in cuts
      ensures !(m.start <= i && j <= m.end)
    {
      if m.start <= i && i < m.end {
        CutsAreApart(s, cuts, 0, l, m, i);
      }
    }
  }

  /** Every bearer token of a string is cut as a whole if and only if none starts inside another. */
  lemma BearersAreCovered(s: string, cuts: seq<Loc>, kinds: map<Loc, Shape>)
    requires Explains(s, cuts, kinds)
    ensures (forall i: nat, j: nat :: Matches(Bearer, s, i, j) ==> Covered(cuts, i, j)) <==> !BearerInBearer(s)
  {
    hide Matches, Explains;
    if BearerInBearer(s) {
      var a: nat, e: nat, i: nat, j: nat :| Matches(Bearer, s, a, e) && Matches(Bearer, s, i, j) && a < i < e;
      OneIsUncovered(s, cuts, kinds, a, e, i, j);
    } else {
      forall i: nat, j: nat | Matches(Bearer, s, i, j)
        ensures Covered(cuts, i, j)
      {
        var l := BearerIsTaken(s, cuts, kinds, i, j);
      }
    }
  }

  lemma IsBearer(s: string, i: nat, j: nat)
    requires i + 7 < j <= |s| && s[i..i + 6] == "bearer" && s[i + 6] == ' ' && (i > 0 ==> s[i - 1] == ' ')
    requires forall x :: i + 7 <= x < j ==> IsAlnum(s[x])
    ensures Matches(Bearer, s, i, j)
  {
    var w := s[i..j];
    assert w[..6] == s[i..i + 6];
    assert FoldsTo(w[..6], "bearer");
    assert forall x :: 0 <= x < |w| ==> w[x] == s[i + x];
    assert IsSecretAt(Bearer, w, 6, 7);
  }

  /** The second token of this string stays: its keyword is taken for the value of the first. */
  lemma BearerBearer()
    ensures BearerInBearer("bearer bearer x")
  {
    var s := "bearer bearer x";
    assert s[0..6] == "bearer" && s[7..13] == "bearer" && s[13] == ' ';
    IsBearer(s, 0, 13);
    IsBearer(s, 7, 15);
  }
}
