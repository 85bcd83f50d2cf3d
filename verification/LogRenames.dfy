/** The rotated files read as one history, and exactly which renames keep it. */
module LogRenames {
  import opened LogSpec

  // ----- reading the files as one history -----

  /** Slot 0 is the current file, slot i the backup .i. */
  function Slot(base: string, i: nat): string {
    if i == 0 then base else Backup(base, i)
  }

  lemma {:induction false} SlotsDiffer(base: string, i: nat, j: nat)
    ensures Slot(base, i) == Slot(base, j) ==> i == j
  {
    BackupsDiffer(base, i, j);
    BackupsDiffer(base, j, i);
  }

  function LinesAt(files: Files, p: string): seq<Line> {
    if p in files then files[p] else []
  }

  /** The lines of slots hi down to lo, oldest first. */
  function Span(files: Files, base: string, hi: int, lo: nat): seq<Line>
    decreases hi
  {
    if hi < lo then [] else LinesAt(files, Slot(base, hi)) + Span(files, base, hi - 1, lo)
  }

  /** The backups .n to .1 and the current file. */
  function Retained(files: Files, base: string, n: nat): seq<Line> {
    Span(files, base, n, 0)
  }

  lemma {:induction false} SpanSplit(files: Files, base: string, hi: int, mid: nat, lo: nat)
    requires lo <= mid <= hi + 1
    ensures Span(files, base, hi, lo) == Span(files, base, hi, mid) + Span(files, base, mid - 1, lo)
    decreases hi
  {
    if hi >= mid {
      SpanSplit(files, base, hi - 1, mid, lo);
      Assoc(LinesAt(files, Slot(base, hi)), Span(files, base, hi - 1, mid), Span(files, base, mid - 1, lo));
    }
  }

  lemma {:induction false} Assoc(a: seq<Line>, b: seq<Line>, c: seq<Line>)
    ensures a + (b + c) == (a + b) + c
  {
  }

  lemma {:induction false} SpanFrame(files: Files, other: Files, base: string, hi: int, lo: nat)
    requires forall i: nat :: lo <= i <= hi ==> LinesAt(files, Slot(base, i)) == LinesAt(other, Slot(base, i))
    ensures Span(files, base, hi, lo) == Span(other, base, hi, lo)
    decreases hi
  {
    if hi >= lo {
      var top: nat := hi;
      assert LinesAt(files, Slot(base, top)) == LinesAt(other, Slot(base, top));
      SpanFrame(files, other, base, hi - 1, lo);
    }
  }

  ghost predicate IsSuffix(a: seq<Line>, b: seq<Line>) {
    |a| <= |b| && a == b[|b| - |a|..]
  }

  lemma {:induction false} SuffixTrans(a: seq<Line>, b: seq<Line>, c: seq<Line>)
    requires IsSuffix(a, b) && IsSuffix(b, c)
    ensures IsSuffix(a, c)
  {
  }

  lemma {:induction false} SuffixAppend(a: seq<Line>, b: seq<Line>, more: seq<Line>)
    requires IsSuffix(a, b)
    ensures IsSuffix(a + more, b + more)
  {
  }

  lemma {:induction false} SuffixOf(front: seq<Line>, a: seq<Line>)
    ensures IsSuffix(a, front + a)
  {
  }

  // ----- one rename -----

  function Move(files: Files, base: string, i: nat, stuck: set<string>): Files {
    Rename(files, Slot(base, i), Slot(base, i + 1), stuck)
  }

  ghost predicate CanMove(files: Files, base: string, i: nat, stuck: set<string>) {
    Slot(base, i) in files && Slot(base, i) !in stuck
  }

  /** The rename of slot i fails or has no source, or it lands on a slot that holds no lines, or no
      slot above that one holds any. */
  ghost predicate Harmless(files: Files, base: string, n: nat, i: nat, stuck: set<string>) {
    || !CanMove(files, base, i, stuck)
    || LinesAt(files, Slot(base, i + 1)) == []
    || Span(files, base, n, i + 2) == []
  }

  lemma {:induction false} MoveAt(files: Files, base: string, i: nat, stuck: set<string>, j: nat)
    ensures LinesAt(Move(files, base, i, stuck), Slot(base, j)) ==
            if !CanMove(files, base, i, stuck) then LinesAt(files, Slot(base, j))
            else if j == i then []
            else if j == i + 1 then LinesAt(files, Slot(base, i))
            else LinesAt(files, Slot(base, j))
  {
    SlotsDiffer(base, i, j);
    SlotsDiffer(base, i + 1, j);
    SlotsDiffer(base, i, i + 1);
  }

  lemma {:induction false} MoveSpan(files: Files, base: string, i: nat, stuck: set<string>, hi: int, lo: nat)
    requires lo >= i + 2 || hi < i
    ensures Span(Move(files, base, i, stuck), base, hi, lo) == Span(files, base, hi, lo)
  {
    var r := Move(files, base, i, stuck);
    forall j: nat | lo <= j <= hi ensures LinesAt(r, Slot(base, j)) == LinesAt(files, Slot(base, j)) {
      MoveAt(files, base, i, stuck, j);
    }
    SpanFrame(r, files, base, hi, lo);
  }

  lemma {:induction false} SpanParts(files: Files, base: string, n: nat, i: nat)
    requires i < n
    ensures Retained(files, base, n) == Span(files, base, n, i + 2) +
              (LinesAt(files, Slot(base, i + 1)) + (LinesAt(files, Slot(base, i)) + Span(files, base, i - 1, 0)))
  {
    SpanSplit(files, base, n, i + 2, 0);
    assert Span(files, base, i + 1, 0) == LinesAt(files, Slot(base, i + 1)) + Span(files, base, i, 0);
  }

  /** A rename that works drops what its target held and leaves all other lines in order. */
  lemma {:induction false} MoveRetained(files: Files, base: string, n: nat, i: nat, stuck: set<string>)
    requires i < n && CanMove(files, base, i, stuck)
    ensures Retained(Move(files, base, i, stuck), base, n) ==
            Span(files, base, n, i + 2) + (LinesAt(files, Slot(base, i)) + Span(files, base, i - 1, 0))
  {
    var r := Move(files, base, i, stuck);
    SpanParts(r, base, n, i);
    MoveSpan(files, base, i, stuck, n, i + 2);
    MoveSpan(files, base, i, stuck, i - 1, 0);
    MoveAt(files, base, i, stuck, i);
    MoveAt(files, base, i, stuck, i + 1);
    assert [] + Span(r, base, i - 1, 0) == Span(r, base, i - 1, 0);
  }

  lemma {:induction false} DropsMiddle(older: seq<Line>, y: seq<Line>, rest: seq<Line>)
    ensures older == [] || y == [] ==> IsSuffix(older + rest, older + (y + rest))
  {
    if older == [] {
      assert older + rest == rest && older + (y + rest) == y + rest;
    } else if y == [] {
      assert y + rest == rest;
    }
  }

  lemma {:induction false} HarmlessMoveKeeps(files: Files, base: string, n: nat, i: nat, stuck: set<string>)
    requires i < n && Harmless(files, base, n, i, stuck)
    ensures IsSuffix(Retained(Move(files, base, i, stuck), base, n), Retained(files, base, n))
  {
    if CanMove(files, base, i, stuck) {
      MoveRetained(files, base, n, i, stuck);
      SpanParts(files, base, n, i);
      DropsMiddle(Span(files, base, n, i + 2), LinesAt(files, Slot(base, i + 1)),
                  LinesAt(files, Slot(base, i)) + Span(files, base, i - 1, 0));
    }
  }

  // ----- the renames of one rotation, in full or cut off -----

  /** The renames of slots i, i-1, ..., to. */
  function Moves(files: Files, base: string, i: int, to: nat, stuck: set<string>): Files
    decreases i
  {
    if i < to then files else Moves(Move(files, base, i, stuck), base, i - 1, to, stuck)
  }

  lemma {:induction false} ShiftIsMoves(files: Files, base: string, i: nat, stuck: set<string>)
    ensures Rename(Shift(files, base, i, stuck), base, Backup(base, 1), stuck) == Moves(files, base, i, 0, stuck)
    decreases i
  {
    if i == 0 {
      assert Moves(files, base, 0, 0, stuck) == Move(files, base, 0, stuck);
    } else {
      ShiftIsMoves(Move(files, base, i, stuck), base, i - 1, stuck);
    }
  }

  lemma {:induction false} RotatedIsMoves(files: Files, base: string, maxBackups: int, stuck: set<string>)
    ensures Rotated(files, base, maxBackups, stuck) == Moves(files, base, Slots(maxBackups) - 1, 0, stuck)
  {
    ShiftIsMoves(files, base, Slots(maxBackups) - 1, stuck);
  }

  ghost predicate HarmlessMoves(files: Files, base: string, n: nat, i: int, to: nat, stuck: set<string>)
    decreases i
  {
    i < to || (Harmless(files, base, n, i, stuck) && HarmlessMoves(Move(files, base, i, stuck), base, n, i - 1, to, stuck))
  }

  lemma {:induction false} HarmlessMovesKeep(files: Files, base: string, n: nat, i: int, to: nat, stuck: set<string>)
    requires i < n && HarmlessMoves(files, base, n, i, to, stuck)
    ensures IsSuffix(Retained(Moves(files, base, i, to, stuck), base, n), Retained(files, base, n))
    decreases i
  {
    if i >= to {
      var next := Move(files, base, i, stuck);
      HarmlessMoveKeeps(files, base, n, i, stuck);
      HarmlessMovesKeep(next, base, n, i - 1, to, stuck);
      SuffixTrans(Retained(Moves(files, base, i, to, stuck), base, n), Retained(next, base, n), Retained(files, base, n));
    }
  }

  lemma {:induction false} MovesSpan(files: Files, base: string, i: int, to: nat, stuck: set<string>, hi: int, lo: nat)
    requires lo >= i + 2
    ensures Span(Moves(files, base, i, to, stuck), base, hi, lo) == Span(files, base, hi, lo)
    decreases i
  {
    if i >= to {
      MoveSpan(files, base, i, stuck, hi, lo);
      MovesSpan(Move(files, base, i, stuck), base, i - 1, to, stuck, hi, lo);
    }
  }

  lemma {:induction false} MoveShrinks(files: Files, base: string, n: nat, i: nat, stuck: set<string>)
    requires i < n
    ensures |Retained(Move(files, base, i, stuck), base, n)| <= |Retained(files, base, n)|
    ensures !Harmless(files, base, n, i, stuck) ==>
              |Retained(Move(files, base, i, stuck), base, n)| < |Retained(files, base, n)|
  {
    if CanMove(files, base, i, stuck) {
      MoveRetained(files, base, n, i, stuck);
      SpanParts(files, base, n, i);
    }
  }

  lemma {:induction false} MovesShrink(files: Files, base: string, n: nat, i: int, to: nat, stuck: set<string>)
    requires i < n
    ensures |Retained(Moves(files, base, i, to, stuck), base, n)| <= |Retained(files, base, n)|
    decreases i
  {
    if i >= to {
      MoveShrinks(files, base, n, i, stuck);
      MovesShrink(Move(files, base, i, stuck), base, n, i - 1, to, stuck);
    }
  }

  // ----- exactly when a rotation keeps the history -----

  ghost predicate NoRepeats(s: seq<Line>) {
    forall j, k :: 0 <= j < k < |s| ==> s[j] != s[k]
  }

  /** A shorter sequence with the same first element is not a suffix of one without repeats. */
  lemma {:induction false} SameStart(a: seq<Line>, b: seq<Line>)
    requires NoRepeats(b) && 0 < |a| < |b| && a[0] == b[0]
    ensures !IsSuffix(a, b)
  {
    var cut := |b| - |a|;
    assert b[cut..][0] == b[cut] && b[0] != b[cut];
  }

  lemma {:induction false} HarmfulMoveBreaks(files: Files, base: string, n: nat, i: nat, to: nat, stuck: set<string>)
    requires to <= i < n && !Harmless(files, base, n, i, stuck) && NoRepeats(Retained(files, base, n))
    ensures !IsSuffix(Retained(Moves(files, base, i, to, stuck), base, n), Retained(files, base, n))
  {
    var z := Moves(files, base, i, to, stuck);
    MoveShrinks(files, base, n, i, stuck);
    MovesShrink(Move(files, base, i, stuck), base, n, i - 1, to, stuck);
    MovesSpan(files, base, i, to, stuck, n, i + 2);
    SpanSplit(files, base, n, i + 2, 0);
    SpanSplit(z, base, n, i + 2, 0);
    SameStart(Retained(z, base, n), Retained(files, base, n));
  }

  /** With no line twice, the renames of a rotation, complete or cut off at any point, keep the
      history a suffix of what it was if and only if each of them is harmless. */
  lemma {:induction false} RenamesKeepExactly(files: Files, base: string, n: nat, i: int, to: nat, stuck: set<string>)
    requires i < n && NoRepeats(Retained(files, base, n))
    ensures IsSuffix(Retained(Moves(files, base, i, to, stuck), base, n), Retained(files, base, n)) <==>
            HarmlessMoves(files, base, n, i, to, stuck)
    decreases i
  {
    if i >= to {
      if Harmless(files, base, n, i, stuck) {
        var next := Move(files, base, i, stuck);
        HarmlessMoveKeeps(files, base, n, i, stuck);
        MovesShrink(next, base, n, i - 1, to, stuck);
        RenamesKeepExactly(next, base, n, i - 1, to, stuck);
        SuffixInside(Retained(Moves(files, base, i, to, stuck), base, n), Retained(next, base, n), Retained(files, base, n));
      } else {
        HarmfulMoveBreaks(files, base, n, i, to, stuck);
      }
    }
  }

  lemma {:induction false} SuffixInside(a: seq<Line>, b: seq<Line>, c: seq<Line>)
    requires IsSuffix(b, c) && |a| <= |b|
    ensures IsSuffix(a, c) <==> IsSuffix(a, b)
  {
    assert c[|c| - |a|..] == b[|b| - |a|..];
  }

  /** No rename of an occupied backup fails while the one below it works. */
  ghost predicate StuckTogether(files: Files, base: string, i: int, stuck: set<string>) {
    forall j: nat :: j < i && CanMove(files, base, j, stuck) && Slot(base, j + 1) in files ==> Slot(base, j + 1) !in stuck
  }

  /** A check on the directory before the rotation: below the last slot no occupied backup is stuck
      while the file under it can move.  Then every rename is harmless, also when the renames are
      cut off. */
  lemma {:induction false} StuckTogetherIsHarmless(files: Files, base: string, n: nat, i: int, to: nat, stuck: set<string>)
    requires i < n && StuckTogether(files, base, i, stuck)
    requires i < 0 || i + 1 == n || !CanMove(files, base, i, stuck) || Slot(base, i + 1) !in files
    ensures HarmlessMoves(files, base, n, i, to, stuck)
    decreases i
  {
    if i >= to {
      var next := Move(files, base, i, stuck);
      forall j: nat | j < i - 1 && CanMove(next, base, j, stuck) && Slot(base, j + 1) in next
        ensures Slot(base, j + 1) !in stuck
      {
        OccupiedAfterMove(files, base, i, stuck, j);
        OccupiedAfterMove(files, base, i, stuck, j + 1);
        assert CanMove(files, base, j, stuck);
      }
      if i > 0 {
        var below: nat := i - 1;
        assert Slot(base, below + 1) == Slot(base, i);
        OccupiedAfterMove(files, base, i, stuck, below);
        OccupiedAfterMove(files, base, i, stuck, i);
      }
      StuckTogetherIsHarmless(next, base, n, i - 1, to, stuck);
    }
  }

  lemma {:induction false} OccupiedAfterMove(files: Files, base: string, i: nat, stuck: set<string>, j: nat)
    requires j <= i
    ensures Slot(base, j) in Move(files, base, i, stuck) <==>
            Slot(base, j) in files && (j < i || Slot(base, j) in stuck)
  {
    SlotsDiffer(base, i, j);
    SlotsDiffer(base, i + 1, j);
  }
}
