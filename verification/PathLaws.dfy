/** What the path functions mean, for every path: where a path leads, which file it names, and what
    its parent is. */
module PathLaws {
  import opened FileNames
  import opened Paths

  // ----- where a path leads -----

  /** A directory is the list of names that lead to it from the root.  One part of a path moves from
      there: "" and "." stay, ".." goes up (at the root it stays), any other name goes down. */
  function Step(at: seq<string>, part: string): seq<string> {
    if part == "" || part == "." then at
    else if part == ".." then (if at == [] then [] else at[..|at| - 1])
    else at + [part]
  }

  function Follow(at: seq<string>, parts: seq<string>): seq<string>
    decreases |parts|
  {
    if parts == [] then at else Follow(Step(at, parts[0]), parts[1..])
  }

  /** Where path s leads from the working directory. */
  function Leads(cwd: seq<string>, s: string): seq<string> {
    Follow(if Rooted(s) then [] else cwd, Split(s))
  }

  lemma {:induction false} FollowConcat(at: seq<string>, a: seq<string>, b: seq<string>)
    ensures Follow(at, a + b) == Follow(Follow(at, a), b)
    decreases |a|
  {
    if a == [] {
      assert a + b == b;
    } else {
      assert (a + b)[1..] == a[1..] + b;
      FollowConcat(Step(at, a[0]), a[1..], b);
    }
  }

  lemma {:induction false} FollowOne(at: seq<string>, a: seq<string>, part: string)
    ensures Follow(at, a + [part]) == Step(Follow(at, a), part)
  {
    FollowConcat(at, a, [part]);
    assert Follow(Follow(at, a), [part]) == Follow(Step(Follow(at, a), part), [part][1..]);
  }

  lemma {:induction false} PushFollows(at: seq<string>, rooted: bool, st: seq<string>, part: string)
    requires Normal(rooted, st) && (rooted ==> at == [])
    ensures Follow(at, Push(rooted, st, part)) == Step(Follow(at, st), part)
  {
    FollowOne(at, st, part);
    if part == ".." && st != [] {
      var front, last := st[..|st| - 1], st[|st| - 1];
      assert st == front + [last];
      if last != ".." { FollowOne(at, front, last); }
    }
  }

  lemma {:induction false} PushIsNormal(rooted: bool, st: seq<string>, part: string)
    requires Normal(rooted, st) && '/' !in part
    ensures Normal(rooted, Push(rooted, st, part))
  {
    ReduceIsNormal(rooted, st, [part]);
    assert Reduce(rooted, st, [part]) == Reduce(rooted, Push(rooted, st, part), [part][1..]);
  }

  lemma {:induction false} ReduceFollows(at: seq<string>, rooted: bool, st: seq<string>, parts: seq<string>)
    requires Normal(rooted, st) && (rooted ==> at == [])
    requires forall i :: 0 <= i < |parts| ==> '/' !in parts[i]
    ensures Follow(at, Reduce(rooted, st, parts)) == Follow(Follow(at, st), parts)
    decreases |parts|
  {
    if parts != [] {
      PushFollows(at, rooted, st, parts[0]);
      PushIsNormal(rooted, st, parts[0]);
      ReduceFollows(at, rooted, Push(rooted, st, parts[0]), parts[1..]);
    }
  }

  /** The elements of a path lead where the path leads. */
  lemma {:induction false} ElementsLead(cwd: seq<string>, s: string)
    ensures Leads(cwd, s) == Follow(if Rooted(s) then [] else cwd, Elements(s))
  {
    ReduceFollows(if Rooted(s) then [] else cwd, Rooted(s), [], Split(s));
  }

  /** Clean keeps the meaning of a path: it leads to the same directory from every working
      directory, it stays absolute or relative, and it is never empty. */
  lemma {:induction false} CleanLeadsThere(cwd: seq<string>, s: string)
    ensures Leads(cwd, Clean(s)) == Leads(cwd, s) && Rooted(Clean(s)) == Rooted(s) && Clean(s) != ""
  {
    CleanIsIdempotent(s);
    ElementsLead(cwd, s);
    ElementsLead(cwd, Clean(s));
    if !Rooted(s) && Elements(s) != [] {
      ElementsAreNormal(s);
      SlashedHead(Elements(s));
    }
  }

  /** Joining follows the first path and then the parts of the second, and is clean unless both are
      empty. */
  lemma {:induction false} JoinLeads(cwd: seq<string>, p: string, n: string)
    requires p != "" || n != ""
    ensures Leads(cwd, Join(p, n)) == if p == "" then Leads(cwd, n) else Follow(Leads(cwd, p), Split(n))
    ensures Clean(Join(p, n)) == Join(p, n)
  {
    var s := if p == "" then n else if n == "" then p else p + "/" + n;
    assert Join(p, n) == Clean(s);
    CleanLeadsThere(cwd, s);
    CleanIsIdempotent(s);
    if n == "" {
      assert Split("") == [""] && [""][1..] == [];
      assert Follow(Leads(cwd, p), [""]) == Follow(Leads(cwd, p), []);
    } else if p != "" {
      SplitConcat(p, n);
      FollowConcat(if Rooted(p) then [] else cwd, Split(p), Split(n));
    }
  }

  // ----- two paths with one meaning -----

  /** Both absolute or both relative, and leading to the same place from everywhere. */
  ghost predicate SameMeaning(s: string, t: string) {
    Rooted(s) == Rooted(t) && forall cwd :: Leads(cwd, s) == Leads(cwd, t)
  }

  /** The number of ".." at the front. */
  function Ups(st: seq<string>): (u: nat)
    ensures u <= |st|
  {
    if st == [] || st[0] != ".." then 0 else 1 + Ups(st[1..])
  }

  lemma {:induction false} UpsAre(st: seq<string>)
    ensures forall i :: 0 <= i < Ups(st) ==> st[i] == ".."
    ensures Ups(st) < |st| ==> st[Ups(st)] != ".."
  {
    if st != [] && st[0] == ".." {
      UpsAre(st[1..]);
      forall i | 0 <= i < Ups(st) ensures st[i] == ".." {
        if i > 0 { assert st[1..][i - 1] == st[i]; }
      }
    }
  }

  lemma {:induction false} NamesFollow(at: seq<string>, names: seq<string>)
    requires forall i :: 0 <= i < |names| ==> names[i] != "" && names[i] != "." && names[i] != ".."
    ensures Follow(at, names) == at + names
    decreases |names|
  {
    if names == [] {
      assert at + names == at;
    } else {
      NamesFollow(at + [names[0]], names[1..]);
      assert at + names == (at + [names[0]]) + names[1..];
    }
  }

  lemma {:induction false} UpsFollow(at: seq<string>, ups: seq<string>)
    requires |ups| <= |at| && forall i :: 0 <= i < |ups| ==> ups[i] == ".."
    ensures Follow(at, ups) == at[..|at| - |ups|]
    decreases |ups|
  {
    if ups == [] {
      assert at[..|at|] == at;
    } else {
      UpsFollow(at[..|at| - 1], ups[1..]);
    }
  }

  lemma {:induction false} NoInnerUps(rooted: bool, st: seq<string>)
    requires Normal(rooted, st)
    ensures rooted ==> Ups(st) == 0
    ensures forall i :: Ups(st) <= i < |st| ==> st[i] != ".."
  {
    var u := Ups(st);
    UpsAre(st);
    assert rooted && st != [] ==> st[0] != "..";
    forall i | u <= i < |st| ensures st[i] != ".." {
      assert st[u] != "..";
    }
  }

  /** The elements after the leading "..". */
  function Names(st: seq<string>): seq<string> {
    st[Ups(st)..]
  }

  /** Where st leads from a directory at least that deep. */
  function Landing(at: seq<string>, st: seq<string>): seq<string>
    requires Ups(st) <= |at|
  {
    at[..|at| - Ups(st)] + Names(st)
  }

  lemma {:induction false} UpsThenNames(at: seq<string>, ups: seq<string>, names: seq<string>)
    requires |ups| <= |at| && forall i :: 0 <= i < |ups| ==> ups[i] == ".."
    requires forall i :: 0 <= i < |names| ==> names[i] != "" && names[i] != "." && names[i] != ".."
    ensures Follow(at, ups + names) == at[..|at| - |ups|] + names
  {
    FollowConcat(at, ups, names);
    UpsFollow(at, ups);
    NamesFollow(at[..|at| - |ups|], names);
  }

  lemma {:induction false} NormalFollows(at: seq<string>, rooted: bool, st: seq<string>)
    requires Normal(rooted, st) && (if rooted then at == [] else |st| <= |at|)
    ensures Ups(st) <= |at|
    ensures Follow(at, st) == Landing(at, st)
  {
    NoInnerUps(rooted, st);
    UpsAre(st);
    assert st == st[..Ups(st)] + Names(st);
    UpsThenNames(at, st[..Ups(st)], Names(st));
  }

  lemma {:induction false} FreshName(names: set<string>) returns (z: string)
    ensures z !in names
  {
    var n := LongestName(names);
    z := seq(n + 1, _ => 'a');
  }

  /** From a deep directory whose names are foreign to it, an element list with more ".." leads
      elsewhere. */
  lemma {:induction false} MoreUps(a: seq<string>, b: seq<string>, z: string, at: seq<string>)
    requires z !in a && Ups(b) < Ups(a) <= |at| && forall i :: 0 <= i < |at| ==> at[i] == z
    ensures Landing(at, a) != Landing(at, b)
  {
    forall i | 0 <= i < |Names(a)| ensures Names(a)[i] != z {
      assert Names(a)[i] == a[Ups(a) + i];
    }
    DifferAt(at, |at| - Ups(a), Names(a), |at| - Ups(b), Names(b), z);
  }

  lemma {:induction false} DifferAt(at: seq<string>, k: nat, names: seq<string>, m: nat, more: seq<string>, z: string)
    requires k < m <= |at| && z !in names && forall i :: 0 <= i < |at| ==> at[i] == z
    ensures at[..k] + names != at[..m] + more
  {
    assert (at[..m] + more)[k] == at[k];
    if names != [] { assert (at[..k] + names)[k] == names[0]; }
  }

  lemma {:induction false} SameTail(front: seq<string>, x: seq<string>, y: seq<string>)
    requires front + x == front + y
    ensures x == y
  {
    assert x == (front + x)[|front|..] && y == (front + y)[|front|..];
  }

  lemma {:induction false} SameUps(a: seq<string>, b: seq<string>, at: seq<string>)
    requires Ups(a) == Ups(b) <= |at| && Landing(at, a) == Landing(at, b)
    ensures a == b
  {
    SameTail(at[..|at| - Ups(a)], Names(a), Names(b));
    SameParts(a, b);
  }

  lemma {:induction false} SameParts(a: seq<string>, b: seq<string>)
    requires Ups(a) == Ups(b) && Names(a) == Names(b)
    ensures a == b
  {
    UpsAre(a);
    UpsAre(b);
    assert a[..Ups(a)] == b[..Ups(b)];
    assert a == a[..Ups(a)] + Names(a) && b == b[..Ups(b)] + Names(b);
  }

  /** Clean decides meaning: two paths have the same cleaned form exactly when they mean the same. */
  lemma {:induction false} CleanDecidesMeaning(s: string, t: string)
    ensures Clean(s) == Clean(t) <==> SameMeaning(s, t)
  {
    forall cwd ensures Leads(cwd, Clean(s)) == Leads(cwd, s) && Leads(cwd, Clean(t)) == Leads(cwd, t) {
      CleanLeadsThere(cwd, s);
      CleanLeadsThere(cwd, t);
    }
    CleanLeadsThere([], s);
    CleanLeadsThere([], t);
    if SameMeaning(s, t) {
      MeaningGivesElements(s, t);
    }
  }

  lemma {:induction false} RootedFollows(st: seq<string>)
    requires Normal(true, st)
    ensures Follow([], st) == st
  {
    NoInnerUps(true, st);
    NamesFollow([], st);
    assert [] + st == st;
  }

  lemma {:induction false} MeaningGivesElements(s: string, t: string)
    requires SameMeaning(s, t)
    ensures Elements(s) == Elements(t)
  {
    var a, b := Elements(s), Elements(t);
    ElementsAreNormal(s);
    ElementsAreNormal(t);
    var z := FreshName((set x | x in a) + (set x | x in b));
    var at: seq<string> := if Rooted(s) then [] else seq(|a| + |b|, _ => z);
    ElementsLead(at, s);
    ElementsLead(at, t);
    assert Leads(at, s) == Leads(at, t);
    if Rooted(s) {
      RootedFollows(a);
      RootedFollows(b);
    } else {
      NormalFollows(at, false, a);
      NormalFollows(at, false, b);
      if Ups(a) > Ups(b) {
        MoreUps(a, b, z, at);
      } else if Ups(b) > Ups(a) {
        MoreUps(b, a, z, at);
      } else {
        SameUps(a, b, at);
      }
    }
  }

  // ----- the parent of a path -----

  /** Every path is a front that is empty or ends in a slash, and a last part without slashes; its
      parent is "." in the first case and the cleaned front in the second. */
  lemma {:induction false} DirExactly(front: string, n: string)
    requires '/' !in n && (front == "" || front[|front| - 1] == '/')
    ensures Dir(front + n) == if front == "" then "." else Clean(front)
  {
    LastSlashIs(front, n);
    assert (front + n)[..|front|] == front;
    if front == "" {
      assert Elements("") == [] by { assert Split("") == [""] && [""][1..] == []; }
    }
  }

  // ----- the name of a path -----

  lemma {:induction false} SplitLast(front: string, n: string)
    requires '/' !in n && (front == "" || front[|front| - 1] == '/')
    ensures Split(front + n)[|Split(front + n)| - 1] == n
  {
    SplitPlain(n);
    if front == "" {
      assert front + n == n;
    } else {
      var a := front[..|front| - 1];
      assert a + "/" + n == front + n;
      SplitConcat(a, n);
    }
  }

  /** The last part that is not empty, or "" if there is none. */
  function LastPart(parts: seq<string>): string {
    if parts == [] then "" else if parts[|parts| - 1] != "" then parts[|parts| - 1] else LastPart(parts[..|parts| - 1])
  }

  lemma {:induction false} LastPartIsThere(parts: seq<string>)
    ensures LastPart(parts) != "" ==> LastPart(parts) in parts
  {
    if parts != [] { LastPartIsThere(parts[..|parts| - 1]); }
  }

  /** The name that BuildFSTree gives its root: the last part of the path that is not empty, "/" for
      a path of slashes only, "." for the empty path. */
  function RootName(s: string): string {
    if s == "" then "." else if LastPart(Split(s)) == "" then "/" else LastPart(Split(s))
  }

  lemma {:induction false} TrimmedLastPart(s: string)
    ensures LastPart(Split(s)) == LastPart(Split(TrimSlashes(s)))
    ensures var t := TrimSlashes(s); t == "" || t[|t| - 1] != '/'
    decreases |s|
  {
    if s != "" && s[|s| - 1] == '/' {
      var front := s[..|s| - 1];
      assert s == front + "/" + "";
      SplitConcat(front, "");
      assert Split(s) == Split(front) + [""];
      assert (Split(front) + [""])[..|Split(front)|] == Split(front);
      TrimmedLastPart(front);
    }
  }

  /** What follows the last slash. */
  function AfterSlash(s: string): string {
    s[LastSlash(s) + 1..]
  }

  /** Base computes that name, for every path. */
  lemma {:induction false} BaseIsRootName(s: string)
    ensures Base(s) == RootName(s)
  {
    if s != "" {
      var t := TrimSlashes(s);
      TrimmedLastPart(s);
      BaseOfTrimmed(s);
      if t == "" {
        OnlySlashes("");
      } else {
        var front := CutAtLastSlash(t);
        LastPartOfCut(front, AfterSlash(t));
      }
    }
  }

  lemma {:induction false} BaseOfTrimmed(s: string)
    requires s != ""
    ensures Base(s) == if AfterSlash(TrimSlashes(s)) == "" then "/" else AfterSlash(TrimSlashes(s))
  {
  }

  /** A path that does not end in a slash, cut after its last one. */
  lemma {:induction false} CutAtLastSlash(t: string) returns (front: string)
    requires t != "" && t[|t| - 1] != '/'
    ensures t == front + AfterSlash(t) && (front == "" || front[|front| - 1] == '/')
    ensures '/' !in AfterSlash(t) && AfterSlash(t) != ""
  {
    front := t[..LastSlash(t) + 1];
    assert forall j :: LastSlash(t) < j < |t| ==> t[j] != '/';
    assert LastSlash(t) != |t| - 1;
  }

  lemma {:induction false} LastPartOfCut(front: string, n: string)
    requires n != "" && '/' !in n && (front == "" || front[|front| - 1] == '/')
    ensures LastPart(Split(front + n)) == n
  {
    SplitLast(front, n);
    LastPartIsLast(Split(front + n));
  }

  lemma {:induction false} LastPartIsLast(parts: seq<string>)
    requires parts != []
    ensures parts[|parts| - 1] != "" ==> LastPart(parts) == parts[|parts| - 1]
  {
  }

  lemma {:induction false} OnlySlashes(s: string)
    ensures LastPart(Split(s)) == "" <==> forall i :: 0 <= i < |s| ==> s[i] == '/'
    decreases |s|
  {
    if s == "" {
      assert Split("") == [""];
    } else {
      OnlySlashes(s[..|s| - 1]);
      if s[|s| - 1] == '/' {
        var front := s[..|s| - 1];
        assert s == front + "/" + "";
        SplitConcat(front, "");
        assert (Split(front) + [""])[..|Split(front)|] == Split(front);
      } else {
        var front := CutAtLastSlash(s);
        LastPartOfCut(front, AfterSlash(s));
      }
    }
  }

  /** It is "/" exactly for the non-empty paths of slashes only. */
  lemma {:induction false} SlashesAreNamedSlash(s: string)
    ensures Base(s) == "/" <==> s != "" && forall i :: 0 <= i < |s| ==> s[i] == '/'
  {
    BaseIsRootName(s);
    OnlySlashes(s);
    LastPartIsThere(Split(s));
    assert "/"[0] == '/';
  }

  /** For a clean path it is the last element, "/" for the root and "." for the current directory. */
  lemma {:induction false} CleanRootName(s: string)
    requires Clean(s) == s
    ensures RootName(s) == if Elements(s) != [] then Elements(s)[|Elements(s)| - 1] else if Rooted(s) then "/" else "."
  {
    var st := Elements(s);
    LastPartIsLast(Split(s));
    if st != [] {
      ElementsAreNormal(s);
      SplitPrinted(Rooted(s), st);
      assert Split(s)[|Split(s)| - 1] == st[|st| - 1];
    } else if Rooted(s) {
      OnlySlashes("/");
    } else {
      SplitPlain(".");
    }
  }
}
