/** Slash-separated paths: what filepath.Clean, Dir, Base and Join compute on Unix.

    Clean reads its argument element by element, drops empty elements and ".", lets ".." cancel the
    element before it, and prints what is left. */
module Paths {

  function Split(s: string): (r: seq<string>)
    ensures |r| >= 1
    ensures forall i :: 0 <= i < |r| ==> '/' !in r[i]
  {
    if s == [] then [""]
    else if s[0] == '/' then [""] + Split(s[1..])
    else
      var r := Split(s[1..]);
      [[s[0]] + r[0]] + r[1..]
  }

  function Push(rooted: bool, st: seq<string>, part: string): seq<string> {
    if part == "" || part == "." then st
    else if part == ".." then
      if st != [] && st[|st| - 1] != ".." then st[..|st| - 1]
      else if rooted then st
      else st + [part]
    else st + [part]
  }

  function Reduce(rooted: bool, st: seq<string>, parts: seq<string>): seq<string>
    decreases |parts|
  {
    if parts == [] then st else Reduce(rooted, Push(rooted, st, parts[0]), parts[1..])
  }

  predicate Rooted(s: string) {
    s != "" && s[0] == '/'
  }

  /** The elements of a path after reduction. */
  function Elements(s: string): seq<string> {
    Reduce(Rooted(s), [], Split(s))
  }

  function Slashed(st: seq<string>): string {
    if st == [] then ""
    else if |st| == 1 then st[0]
    else st[0] + "/" + Slashed(st[1..])
  }

  function Render(rooted: bool, st: seq<string>): string {
    if rooted then "/" + Slashed(st)
    else if st == [] then "."
    else Slashed(st)
  }

  function Clean(s: string): string {
    Render(Rooted(s), Elements(s))
  }

  function LastSlash(s: string): (i: int)
    ensures -1 <= i < |s|
    ensures i >= 0 ==> s[i] == '/'
    ensures forall j :: i < j < |s| ==> s[j] != '/'
  {
    if s == "" then -1
    else if s[|s| - 1] == '/' then |s| - 1
    else LastSlash(s[..|s| - 1])
  }

  function Dir(s: string): string {
    Clean(s[..LastSlash(s) + 1])
  }

  function Join(p: string, n: string): string {
    if p == "" && n == "" then ""
    else if p == "" then Clean(n)
    else if n == "" then Clean(p)
    else Clean(p + "/" + n)
  }

  function TrimSlashes(s: string): string {
    if s != "" && s[|s| - 1] == '/' then TrimSlashes(s[..|s| - 1]) else s
  }

  function Base(s: string): string {
    if s == "" then "."
    else
      var t := TrimSlashes(s);
      var b := t[LastSlash(t) + 1..];
      if b == "" then "/" else b
  }

  /** A directory entry's name: what os.ReadDir can return. */
  predicate EntryName(n: string) {
    n != "" && n != "." && n != ".." && '/' !in n
  }

  // ----- reduced element lists -----

  /** Elements that reduction leaves alone. */
  ghost predicate Normal(rooted: bool, st: seq<string>) {
    forall i :: 0 <= i < |st| ==>
      && st[i] != "" && st[i] != "." && '/' !in st[i]
      && (st[i] == ".." ==> !rooted && forall j :: 0 <= j < i ==> st[j] == "..")
  }

  lemma {:induction false} ReduceIsNormal(rooted: bool, st: seq<string>, parts: seq<string>)
    requires Normal(rooted, st)
    requires forall i :: 0 <= i < |parts| ==> '/' !in parts[i]
    ensures Normal(rooted, Reduce(rooted, st, parts))
    decreases |parts|
  {
    if parts != [] {
      var next := Push(rooted, st, parts[0]);
      assert Normal(rooted, next) by {
        if parts[0] == ".." && (st == [] || st[|st| - 1] == "..") && !rooted {
          assert forall j :: 0 <= j < |st| ==> st[j] == "..";
        }
      }
      ReduceIsNormal(rooted, next, parts[1..]);
    }
  }

  lemma {:induction false} ReduceConcat(rooted: bool, st: seq<string>, a: seq<string>, b: seq<string>)
    ensures Reduce(rooted, st, a + b) == Reduce(rooted, Reduce(rooted, st, a), b)
    decreases |a|
  {
    if a == [] {
      assert a + b == b;
    } else {
      assert (a + b)[1..] == a[1..] + b;
      ReduceConcat(rooted, Push(rooted, st, a[0]), a[1..], b);
    }
  }

  lemma {:induction false} NormalIsReduced(rooted: bool, a: seq<string>, b: seq<string>)
    requires Normal(rooted, a + b)
    ensures Reduce(rooted, a, b) == a + b
    decreases |b|
  {
    if b == [] {
      assert a + b == a;
    } else {
      assert (a + b)[|a|] == b[0];
      if b[0] == ".." && a != [] { assert (a + b)[|a| - 1] == a[|a| - 1]; }
      assert Push(rooted, a, b[0]) == a + [b[0]];
      assert a + b == (a + [b[0]]) + b[1..];
      NormalIsReduced(rooted, a + [b[0]], b[1..]);
    }
  }

  // ----- splitting and printing -----

  lemma {:induction false} SplitConcat(a: string, b: string)
    ensures Split(a + "/" + b) == Split(a) + Split(b)
  {
    var s := a + "/" + b;
    if a == "" {
      assert s[1..] == b;
    } else {
      assert s[1..] == a[1..] + "/" + b;
      SplitConcat(a[1..], b);
    }
  }

  lemma {:induction false} SplitPlain(n: string)
    requires '/' !in n
    ensures Split(n) == [n]
  {
    if n != "" {
      SplitPlain(n[1..]);
      assert [n[0]] + n[1..] == n;
    }
  }

  lemma {:induction false} SplitSlashed(st: seq<string>)
    requires st != [] && forall i :: 0 <= i < |st| ==> '/' !in st[i]
    ensures Split(Slashed(st)) == st
  {
    SplitPlain(st[0]);
    if |st| > 1 {
      SplitSlashed(st[1..]);
      SplitConcat(st[0], Slashed(st[1..]));
    }
  }

  lemma {:induction false} SlashedSnoc(st: seq<string>, n: string)
    ensures Slashed(st + [n]) == if st == [] then n else Slashed(st) + "/" + n
  {
    if |st| >= 1 {
      assert (st + [n])[1..] == st[1..] + [n];
      SlashedSnoc(st[1..], n);
    }
  }

  lemma {:induction false} SlashedHead(st: seq<string>)
    requires st != [] && st[0] != "" && '/' !in st[0]
    ensures Slashed(st) != "" && Slashed(st)[0] != '/'
  {
    assert Slashed(st)[0] == st[0][0];
  }

  lemma {:induction false} SplitPrinted(rooted: bool, st: seq<string>)
    requires st != [] && Normal(rooted, st)
    ensures Split(Render(rooted, st)) == (if rooted then [""] else []) + st
    ensures Rooted(Render(rooted, st)) == rooted && Render(rooted, st) != ""
  {
    SplitSlashed(st);
    SlashedHead(st);
    SplitConcat("", Slashed(st));
    assert "" + "/" + Slashed(st) == "/" + Slashed(st);
    assert [] + st == st;
  }

  lemma {:induction false} ReducePrinted(rooted: bool, st: seq<string>, tail: seq<string>)
    requires Normal(rooted, st) && (tail == [] || tail == [""])
    ensures Reduce(rooted, [], (if rooted then [""] else []) + st + tail) == st
  {
    var lead := if rooted then [""] else [];
    assert [] + st == st;
    NormalIsReduced(rooted, [], st);
    ReduceConcat(rooted, [], lead, st);
    ReduceConcat(rooted, [], lead + st, tail);
    assert Reduce(rooted, [], lead) == [];
    assert Reduce(rooted, st, tail) == st;
  }

  /** What Clean makes of a printed element list, with or without a slash at its end. */
  lemma {:induction false} CleanOfPrinted(rooted: bool, st: seq<string>, slash: bool)
    requires Normal(rooted, st)
    requires slash ==> st != []
    ensures var s := Render(rooted, st) + (if slash then "/" else "");
      Rooted(s) == rooted && Elements(s) == st && Clean(s) == Render(rooted, st)
  {
    var front := Render(rooted, st);
    if st == [] {
      assert Split("/") == [""] + Split("") && Split(".") == ["."] by { SplitPlain("."); }
      assert front + "" == front;
    } else {
      var lead := if rooted then [""] else [];
      SplitPrinted(rooted, st);
      if slash {
        SplitConcat(front, "");
        assert front + "/" + "" == front + "/";
        assert Split(front + "/") == lead + st + [""];
        ReducePrinted(rooted, st, [""]);
      } else {
        assert front + "" == front && lead + st + [] == lead + st;
        ReducePrinted(rooted, st, []);
      }
    }
  }

  // ----- the laws the tree builder rests on -----

  lemma {:induction false} ElementsAreNormal(s: string)
    ensures Normal(Rooted(s), Elements(s))
  {
    ReduceIsNormal(Rooted(s), [], Split(s));
  }

  /** Clean is idempotent and keeps a path's meaning. */
  lemma {:induction false} CleanIsIdempotent(s: string)
    ensures Clean(Clean(s)) == Clean(s)
    ensures Rooted(Clean(s)) == Rooted(s) && Elements(Clean(s)) == Elements(s)
  {
    ElementsAreNormal(s);
    CleanOfPrinted(Rooted(s), Elements(s), false);
    assert Render(Rooted(s), Elements(s)) + "" == Clean(s);
  }

  /** Joining appends one element. */
  lemma {:induction false} JoinAppends(p: string, n: string)
    requires EntryName(n)
    ensures Rooted(Join(p, n)) == Rooted(p)
    ensures Elements(Join(p, n)) == Elements(p) + [n]
    ensures Join(p, n) == Render(Rooted(p), Elements(p) + [n])
  {
    var s := if p == "" then n else p + "/" + n;
    SplitPlain(n);
    if p == "" {
      assert n[0] in n;
      assert Elements("") == [];
      assert [n][1..] == [] && Push(false, [], n) == [n];
      assert Reduce(false, [], [n]) == Reduce(false, [n], []);
    } else {
      SplitConcat(p, n);
      ReduceConcat(Rooted(p), [], Split(p), [n]);
      assert Elements(s) == Elements(p) + [n];
    }
    assert Rooted(s) == Rooted(p);
    assert Join(p, n) == Clean(s);
    CleanIsIdempotent(s);
  }

  /** The front of a printed list, up to its last slash. */
  function Front(rooted: bool, st: seq<string>): string {
    if st == [] then (if rooted then "/" else "") else Render(rooted, st) + "/"
  }

  lemma {:induction false} FrontCleans(rooted: bool, st: seq<string>)
    requires Normal(rooted, st)
    ensures Clean(Front(rooted, st)) == Render(rooted, st)
  {
    if st != [] {
      CleanOfPrinted(rooted, st, true);
    } else if rooted {
      CleanOfPrinted(true, [], false);
      assert Render(true, []) + "" == "/";
    }
  }

  lemma {:induction false} PrintedSnoc(rooted: bool, st: seq<string>, n: string)
    ensures Render(rooted, st + [n]) == Front(rooted, st) + n
  {
    SlashedSnoc(st, n);
  }

  lemma {:induction false} LastSlashIs(front: string, n: string)
    requires '/' !in n && (front == "" || front[|front| - 1] == '/')
    ensures LastSlash(front + n) == |front| - 1
  {
    assert forall j :: |front| <= j < |front + n| ==> (front + n)[j] == n[j - |front|] && n[j - |front|] in n;
    assert front != "" ==> (front + n)[|front| - 1] == '/';
  }

  /** The parent of a joined path is the cleaned directory, for every directory path. */
  lemma {:induction false} DirOfJoin(p: string, n: string)
    requires EntryName(n)
    ensures Dir(Join(p, n)) == Clean(p)
  {
    var front := Front(Rooted(p), Elements(p));
    JoinAppends(p, n);
    PrintedSnoc(Rooted(p), Elements(p), n);
    LastSlashIs(front, n);
    assert (front + n)[..|front|] == front;
    ElementsAreNormal(p);
    FrontCleans(Rooted(p), Elements(p));
  }

  /** The last element of a joined path is the entry's own name. */
  lemma {:induction false} BaseOfJoin(p: string, n: string)
    requires EntryName(n)
    ensures Base(Join(p, n)) == n
  {
    var front := Front(Rooted(p), Elements(p));
    JoinAppends(p, n);
    PrintedSnoc(Rooted(p), Elements(p), n);
    LastSlashIs(front, n);
    var s := front + n;
    assert s[|s| - 1] == n[|n| - 1] && n[|n| - 1] in n;
    assert TrimSlashes(s) == s;
    assert s[|front|..] == n;
  }

  lemma {:induction false} DirIsClean(s: string)
    ensures Clean(Dir(s)) == Dir(s)
  {
    CleanIsIdempotent(s[..LastSlash(s) + 1]);
  }

  // ----- two root paths that are not clean -----

  lemma {:induction false} TrailingSlashIsNotClean(n: string)
    requires EntryName(n)
    ensures Clean(n + "/") == n && Clean(n + "/") != n + "/"
  {
    SplitPlain(n);
    SplitConcat(n, "");
    assert n + "/" + "" == n + "/" && n[0] in n;
    assert Split(n + "/") == [n, ""];
    assert [n, ""][1..] == [""] && [""][1..] == [];
    assert Reduce(false, [], [n, ""]) == Reduce(false, [n], [""]) == Reduce(false, [n], []);
  }

  lemma {:induction false} LeadingDotIsNotClean(n: string)
    requires EntryName(n)
    ensures Clean("./" + n) == n && Clean("./" + n) != "./" + n
  {
    SplitPlain(n);
    SplitPlain(".");
    SplitConcat(".", n);
    assert "." + "/" + n == "./" + n;
    assert Split("./" + n) == [".", n];
    assert [".", n][1..] == [n] && [n][1..] == [];
    assert Reduce(false, [], [".", n]) == Reduce(false, [], [n]) == Reduce(false, [n], []);
    assert |"./" + n| > |n|;
  }
}
