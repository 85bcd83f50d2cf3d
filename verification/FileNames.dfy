/** File names as the agent prints them and as a directory listing orders them.

    os.ReadDir returns entries sorted by name, byte by byte.  The telemetry buffer relies on that
    order to replay snapshots oldest first, although it compares printed decimals, not numbers. */
module FileNames {

  /** Strict byte-wise order of two names. */
  predicate Less(a: string, b: string) {
    b != [] && (a == [] || a[0] < b[0] || (a[0] == b[0] && Less(a[1..], b[1..])))
  }

  lemma LessIsStrict(a: string, b: string)
    ensures !(Less(a, b) && Less(b, a))
    ensures !Less(a, a)
  {
  }

  lemma {:induction false} LessIsTotal(a: string, b: string)
    ensures a == b || Less(a, b) || Less(b, a)
  {
    if a != [] && b != [] && a[0] == b[0] {
      LessIsTotal(a[1..], b[1..]);
      assert a == [a[0]] + a[1..] && b == [b[0]] + b[1..];
    }
  }

  lemma {:induction false} LessIsTransitive(a: string, b: string, c: string)
    requires Less(a, b) && Less(b, c)
    ensures Less(a, c)
  {
    if a != [] && a[0] == b[0] == c[0] {
      LessIsTransitive(a[1..], b[1..], c[1..]);
    }
  }

  // ----- directory listings -----

  ghost predicate Sorted(names: seq<string>) {
    forall i, j :: 0 <= i < j < |names| ==> Less(names[i], names[j])
  }

  ghost predicate IsLeast(m: string, names: set<string>) {
    m in names && forall x :: x in names && x != m ==> Less(m, x)
  }

  lemma {:induction false} LeastExists(names: set<string>) returns (m: string)
    requires names != {}
    ensures IsLeast(m, names)
    decreases names
  {
    var x :| x in names;
    if names == {x} {
      return x;
    }
    var rest := names - {x};
    assert names == rest + {x};
    var y := LeastExists(rest);
    LessIsTotal(x, y);
    if Less(x, y) {
      forall z | z in names && z != x ensures Less(x, z) {
        if z != y { LessIsTransitive(x, y, z); }
      }
      return x;
    }
    return y;
  }

  lemma {:induction false} LeastIsUnique(m: string, n: string, names: set<string>)
    requires IsLeast(m, names) && IsLeast(n, names)
    ensures m == n
  {
    LessIsStrict(m, n);
  }

  /** The names of a directory in the order os.ReadDir returns them. */
  ghost function Listing(names: set<string>): seq<string> {
    if names == {} then []
    else
      var w := Least(names);
      [w] + Listing(names - {w})
  }

  /** A listing holds exactly the names of the directory, in increasing order. */
  lemma {:induction false} ListingIsSorted(names: set<string>)
    ensures forall x :: x in Listing(names) <==> x in names
    ensures Sorted(Listing(names))
    decreases names
  {
    if names != {} {
      var m := Least(names);
      ListingIsSorted(names - {m});
      forall x | x in Listing(names - {m}) ensures Less(m, x) {}
    }
  }

  lemma {:induction false} ListingLength(names: set<string>)
    ensures |Listing(names)| == |names|
    decreases names
  {
    if names != {} { ListingLength(names - {Least(names)}); }
  }

  ghost function Least(names: set<string>): (m: string)
    requires names != {}
    ensures IsLeast(m, names)
  {
    assert exists m :: IsLeast(m, names) by { var m := LeastExists(names); }
    var m :| IsLeast(m, names);
    m
  }

  /** A sorted enumeration of a set of names is its listing. */
  lemma {:induction false} SortedIsListing(s: seq<string>, names: set<string>)
    requires Sorted(s)
    requires forall x :: x in s <==> x in names
    ensures s == Listing(names)
  {
    if s == [] {
      assert names == {};
    } else {
      assert s[0] in names;
      assert IsLeast(s[0], names);
      LeastIsUnique(s[0], Least(names), names);
      forall x ensures x in s[1..] <==> x in names - {s[0]} {
        LessIsStrict(s[0], s[0]);
        assert s == [s[0]] + s[1..];
      }
      SortedIsListing(s[1..], names - {s[0]});
    }
  }

  // ----- printed decimals -----

  function Digit(d: nat): (c: char)
    requires d < 10
    ensures '0' <= c <= '9'
  {
    '0' + d as char
  }

  /** The decimal print of a number, as %d writes it. */
  function Decimal(n: nat): (s: string)
    ensures |s| > 0
    ensures forall i :: 0 <= i < |s| ==> '0' <= s[i] <= '9'
  {
    if n < 10 then [Digit(n)] else Decimal(n / 10) + [Digit(n % 10)]
  }

  /** Comparing a + [x] with b + [y] for equal-length a, b. */
  lemma {:induction false} LessSnoc(a: string, x: char, b: string, y: char)
    requires |a| == |b|
    ensures Less(a + [x], b + [y]) <==> Less(a, b) || (a == b && x < y)
  {
    if a == [] {
      assert [] + [x] == [x] && [] + [y] == [y];
    } else {
      assert (a + [x])[1..] == a[1..] + [x];
      assert (b + [y])[1..] == b[1..] + [y];
      LessSnoc(a[1..], x, b[1..], y);
      assert a == [a[0]] + a[1..] && b == [b[0]] + b[1..];
      LessIsStrict(a, b);
    }
  }

  /** At equal length, printing preserves the order of numbers, both ways. */
  lemma {:induction false} DecimalOrder(m: nat, n: nat)
    requires |Decimal(m)| == |Decimal(n)|
    ensures Less(Decimal(m), Decimal(n)) <==> m < n
    ensures Decimal(m) == Decimal(n) <==> m == n
  {
    if m >= 10 && n >= 10 {
      DecimalOrder(m / 10, n / 10);
      LessSnoc(Decimal(m / 10), Digit(m % 10), Decimal(n / 10), Digit(n % 10));
      if Decimal(m) == Decimal(n) {
        assert Decimal(m)[..|Decimal(m)| - 1] == Decimal(m / 10);
        assert Decimal(n)[..|Decimal(n)| - 1] == Decimal(n / 10);
        assert Decimal(m)[|Decimal(m)| - 1] == Decimal(n)[|Decimal(n)| - 1];
      }
    }
  }

  lemma {:induction false} DecimalInjective(m: nat, n: nat)
    ensures Decimal(m) == Decimal(n) ==> m == n
  {
    if |Decimal(m)| == |Decimal(n)| { DecimalOrder(m, n); }
  }

  /** What is left of a number when its last k digits are dropped. */
  function Leading(n: nat, k: nat): (m: nat)
    decreases k
  {
    if k == 0 then n else Leading(n / 10, k - 1)
  }

  /** The print of the leading digits is the front of the print. */
  lemma {:induction false} DecimalFront(n: nat, k: nat)
    requires k < |Decimal(n)|
    ensures Decimal(Leading(n, k)) == Decimal(n)[..|Decimal(n)| - k]
    decreases k
  {
    if k == 0 {
      assert Decimal(n)[..|Decimal(n)|] == Decimal(n);
    } else {
      DecimalFront(n / 10, k - 1);
      assert Decimal(n)[..|Decimal(n / 10)|] == Decimal(n / 10);
    }
  }

  /** Bytes after the decimals: ".json" starts below every digit. */
  lemma {:induction false} LessSuffix(a: string, b: string, u: string, v: string)
    requires |a| == |b|
    ensures Less(a + u, b + v) <==> Less(a, b) || (a == b && Less(u, v))
  {
    if a == [] {
      assert [] + u == u && [] + v == v;
    } else {
      assert (a + u)[1..] == a[1..] + u;
      assert (b + v)[1..] == b[1..] + v;
      LessSuffix(a[1..], b[1..], u, v);
      assert a == [a[0]] + a[1..] && b == [b[0]] + b[1..];
    }
  }

  // ----- snapshot names -----

  const PREFIX := "batch_"
  const SUFFIX := ".json"

  /** The name of a snapshot written when the nanosecond clock reads t. */
  function BatchName(t: nat): string {
    PREFIX + Decimal(t) + SUFFIX
  }

  lemma {:induction false} BatchNameInjective(t: nat, u: nat)
    ensures BatchName(t) == BatchName(u) ==> t == u
  {
    assert BatchName(t)[6..|BatchName(t)| - 5] == Decimal(t);
    assert BatchName(u)[6..|BatchName(u)| - 5] == Decimal(u);
    DecimalInjective(t, u);
  }

  /** The earlier reading t is not above the leading digits of the later reading u; at equal print
      length this is plain numeric order. */
  predicate NamesAgree(t: nat, u: nat)
    requires |Decimal(t)| <= |Decimal(u)|
  {
    if |Decimal(t)| == |Decimal(u)| then t < u
    else t <= Leading(u, |Decimal(u)| - |Decimal(t)|)
  }

  /** Names sort in clock order exactly when the readings agree in this sense. */
  lemma {:induction false} BatchNameOrder(t: nat, u: nat)
    requires |Decimal(t)| <= |Decimal(u)|
    ensures Less(BatchName(t), BatchName(u)) <==> NamesAgree(t, u)
  {
    var k := |Decimal(u)| - |Decimal(t)|;
    var top := Leading(u, k);
    DecimalFront(u, k);
    var rest := Decimal(u)[|Decimal(t)|..];
    assert Decimal(u) == Decimal(top) + rest;
    StemOrder(Decimal(t), Decimal(top), rest);
    DecimalOrder(t, top);
    SuffixFirst(rest);
  }

  /** Behind the common prefix, equal-length stems decide, then what follows them. */
  lemma {:induction false} StemOrder(a: string, b: string, rest: string)
    requires |a| == |b|
    ensures Less(PREFIX + a + SUFFIX, PREFIX + (b + rest) + SUFFIX) <==> Less(a, b) || (a == b && Less(SUFFIX, rest + SUFFIX))
  {
    LessSuffix(PREFIX, PREFIX, a + SUFFIX, b + (rest + SUFFIX));
    LessIsStrict(PREFIX, PREFIX);
    LessSuffix(a, b, SUFFIX, rest + SUFFIX);
    assert PREFIX + a + SUFFIX == PREFIX + (a + SUFFIX);
    assert PREFIX + (b + rest) + SUFFIX == PREFIX + (b + (rest + SUFFIX));
  }

  lemma {:induction false} SuffixFirst(digits: string)
    requires forall i :: 0 <= i < |digits| ==> '0' <= digits[i] <= '9'
    ensures Less(SUFFIX, digits + SUFFIX) <==> digits != []
  {
    LessIsStrict(SUFFIX, SUFFIX);
    if digits == [] {
      assert digits + SUFFIX == SUFFIX;
    } else {
      assert (digits + SUFFIX)[0] == digits[0];
    }
  }

  // ----- unused names -----

  lemma {:induction false} LongPrint(n: nat) returns (t: nat)
    ensures t > 0 && |Decimal(t)| > n
  {
    t := 1;
    if n > 0 {
      var u := LongPrint(n - 1);
      t := 10 * u;
      assert Decimal(t) == Decimal(u) + [Digit(0)];
    }
  }

  lemma {:induction false} LongestName(names: set<string>) returns (n: nat)
    ensures forall x :: x in names ==> |x| <= n
    decreases names
  {
    n := 0;
    if names != {} {
      var x :| x in names;
      n := LongestName(names - {x});
      n := if |x| > n then |x| else n;
    }
  }

  /** Some clock reading gives a name that is not in use. */
  lemma {:induction false} UnusedName(names: set<string>) returns (t: nat)
    ensures BatchName(t) !in names
  {
    var n := LongestName(names);
    t := LongPrint(n);
  }

  function BatchNames(clock: seq<nat>): seq<string> {
    seq(|clock|, i requires 0 <= i < |clock| => BatchName(clock[i]))
  }

  ghost predicate Increasing(clock: seq<nat>) {
    forall i, j :: 0 <= i < j < |clock| ==> clock[i] < clock[j]
  }

  /** A larger number is not printed shorter. */
  lemma {:induction false} LongerPrint(t: nat, u: nat)
    requires t <= u
    ensures |Decimal(t)| <= |Decimal(u)|
  {
    if u >= 10 && t >= 10 { LongerPrint(t / 10, u / 10); }
  }

  /** Every reading agrees with every later one. */
  ghost predicate AllNamesAgree(clock: seq<nat>)
    requires Increasing(clock)
  {
    forall i, j :: 0 <= i < j < |clock| ==> |Decimal(clock[i])| <= |Decimal(clock[j])| && NamesAgree(clock[i], clock[j])
  }

  /** Snapshots written under an increasing clock are listed in the order they were written if and
      only if every reading agrees with every later one. */
  lemma {:induction false} ListingIsWriteOrder(clock: seq<nat>, names: set<string>)
    requires Increasing(clock)
    requires forall x :: x in names <==> x in BatchNames(clock)
    ensures Listing(names) == BatchNames(clock) <==> AllNamesAgree(clock)
  {
    var s := BatchNames(clock);
    forall i, j | 0 <= i < j < |clock|
      ensures |Decimal(clock[i])| <= |Decimal(clock[j])|
      ensures Less(s[i], s[j]) <==> NamesAgree(clock[i], clock[j])
    {
      LongerPrint(clock[i], clock[j]);
      BatchNameOrder(clock[i], clock[j]);
    }
    assert Sorted(s) <==> AllNamesAgree(clock);
    if Sorted(s) {
      SortedIsListing(s, names);
    }
    ListingIsSorted(names);
  }

  /** In particular when all readings have one print length. */
  lemma {:induction false} EqualLengthsAgree(clock: seq<nat>)
    requires Increasing(clock)
    requires forall i, j :: 0 <= i < j < |clock| ==> |Decimal(clock[i])| == |Decimal(clock[j])|
    ensures AllNamesAgree(clock)
  {
  }

  /** Across a change of length both can happen: 10 is listed before 9, and 90 after it. */
  lemma {:induction false} TenSortsBeforeNine()
    ensures Less(BatchName(10), BatchName(9)) && Less(BatchName(9), BatchName(90))
  {
    assert |Decimal(9)| == |Decimal(1)| == 1;
    assert |Decimal(10)| == |Decimal(1)| + 1 && |Decimal(90)| == |Decimal(9)| + 1;
    assert Leading(10, 1) == Leading(1, 0) && Leading(90, 1) == Leading(9, 0);
    BatchNameOrder(9, 10);
    BatchNameOrder(9, 90);
    LessIsTotal(BatchName(9), BatchName(10));
    BatchNameInjective(9, 10);
  }

  /** Names as they are printed, digit by digit and without leading zeros. */
  lemma {:induction false} PrintedNames()
    ensures BatchName(0) == "batch_0.json" && BatchName(9) == "batch_9.json" && BatchName(120) == "batch_120.json"
  {
    assert Decimal(1) == "1" && Decimal(12) == Decimal(1) + "2" && Decimal(120) == Decimal(12) + "0";
  }
}
