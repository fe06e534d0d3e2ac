/** Plugin versions: parsing and the order they are compared in. */
module Versions {
  import opened Common
  import opened Text

  function Value(digits: string): nat
    requires forall i :: 0 <= i < |digits| ==> IsDigit(digits[i])
  {
    if digits == [] then 0
    else
      var last := digits[|digits| - 1];
      assert IsDigit(last);
      10 * Value(digits[..|digits| - 1]) + (last as int - '0' as int)
  }

  /** `[0-9]+(\.[0-9]+)*` matched from the start up to Python's `$`, which also
      stands before one final newline; `int` then ignores that newline. */
  function ParseVersion(s: string): (r: Option<seq<nat>>)
    ensures r.Some? ==> r.value != []
  {
    var body := TrimSuffix(s, "\n");
    var parts := Split(body, '.');
    if forall i :: 0 <= i < |parts| ==> AllDigits(parts[i])
    then Some(seq(|parts|, i requires 0 <= i < |parts| => Value(parts[i])))
    else None
  }

  // Python's order on tuples.
  predicate Less(a: seq<nat>, b: seq<nat>) {
    if b == [] then false
    else if a == [] then true
    else if a[0] != b[0] then a[0] < b[0]
    else Less(a[1..], b[1..])
  }

  predicate AtMost(a: seq<nat>, b: seq<nat>) { a == b || Less(a, b) }

  lemma {:induction false} LessIsStrict(a: seq<nat>, b: seq<nat>)
    requires Less(a, b)
    ensures a != b && !Less(b, a)
  {
    if a != [] && a[0] == b[0] { LessIsStrict(a[1..], b[1..]); }
  }

  lemma {:induction false} LessIsTransitive(a: seq<nat>, b: seq<nat>, c: seq<nat>)
    requires Less(a, b) && Less(b, c)
    ensures Less(a, c)
  {
    if a != [] && a[0] == b[0] == c[0] { LessIsTransitive(a[1..], b[1..], c[1..]); }
  }

  lemma {:induction false} LessIsTotal(a: seq<nat>, b: seq<nat>)
    ensures Less(a, b) || a == b || Less(b, a)
  {
    if a != [] && b != [] && a[0] == b[0] {
      LessIsTotal(a[1..], b[1..]);
      assert a == [a[0]] + a[1..] && b == [b[0]] + b[1..];
    }
  }

  /** A final newline is not whitespace the parser rejects: it is invisible to it. */
  lemma TrailingNewlineIsInvisible(s: string)
    requires !HasSuffix(s, "\n")
    ensures ParseVersion(s + "\n") == ParseVersion(s)
  {
    assert (s + "\n")[..|s|] == s;
  }

  // ---------------------------------------------------------------- what the digits mean

  function Digit(d: nat): char
    requires d < 10
  {
    "0123456789"[d]
  }

  // A number in decimal, as printed without leading zeros.
  function Decimal(n: nat): string {
    if n < 10 then [Digit(n)] else Decimal(n / 10) + [Digit(n % 10)]
  }

  // A version as printed: its components joined by dots.
  function Dotted(ns: seq<nat>): string
    requires ns != []
  {
    if |ns| == 1 then Decimal(ns[0]) else Decimal(ns[0]) + "." + Dotted(ns[1..])
  }

  lemma DigitIsDigit(d: nat)
    requires d < 10
    ensures IsDigit(Digit(d)) && Digit(d) as int - '0' as int == d
  {
  }

  /** A component stands for the number it prints. */
  lemma {:induction false} DecimalReadsBack(n: nat)
    ensures AllDigits(Decimal(n)) && Value(Decimal(n)) == n
  {
    if n < 10 {
      DigitIsDigit(n);
      assert [Digit(n)][..0] == [];
    } else {
      DecimalReadsBack(n / 10);
      DigitIsDigit(n % 10);
      assert Decimal(n)[..|Decimal(n)| - 1] == Decimal(n / 10);
    }
  }

  /** Leading zeros do not change it. */
  lemma {:induction false} LeadingZero(digits: string)
    requires forall i :: 0 <= i < |digits| ==> IsDigit(digits[i])
    ensures (forall i :: 0 <= i < |"0" + digits| ==> IsDigit(("0" + digits)[i])) && Value("0" + digits) == Value(digits)
  {
    if digits == [] {
      assert "0" + digits == "0" && "0"[..0] == [];
    } else {
      LeadingZero(digits[..|digits| - 1]);
      assert ("0" + digits)[..|digits|] == "0" + digits[..|digits| - 1];
    }
  }

  function Decimals(ns: seq<nat>): (parts: seq<string>)
    ensures |parts| == |ns|
  {
    seq(|ns|, i requires 0 <= i < |ns| => Decimal(ns[i]))
  }

  lemma {:induction false} DottedIsJoin(ns: seq<nat>)
    requires ns != []
    ensures Dotted(ns) == Join(Decimals(ns), '.')
  {
    if |ns| > 1 {
      DottedIsJoin(ns[1..]);
      assert Decimals(ns)[1..] == Decimals(ns[1..]);
    }
  }

  lemma {:induction false} DottedEndsInDigit(ns: seq<nat>)
    requires ns != []
    ensures Dotted(ns) != "" && IsDigit(Dotted(ns)[|Dotted(ns)| - 1])
  {
    if |ns| == 1 {
      DecimalReadsBack(ns[0]);
    } else {
      DottedEndsInDigit(ns[1..]);
    }
  }

  lemma NoNewlineToTrim(s: string)
    requires s != "" && IsDigit(s[|s| - 1])
    ensures TrimSuffix(s, "\n") == s
  {
  }

  /** Round trip: a printed version is parsed to the numbers that were printed. */
  lemma DottedReadsBack(ns: seq<nat>)
    requires ns != []
    ensures ParseVersion(Dotted(ns)) == Some(ns)
  {
    hide Decimal, Value, Join, Split, TrimSuffix, Dotted;
    var s, parts := Dotted(ns), Decimals(ns);
    DottedIsJoin(ns);
    DottedEndsInDigit(ns);
    NoNewlineToTrim(s);
    forall i | 0 <= i < |ns| ensures AllDigits(parts[i]) && '.' !in parts[i] && Value(parts[i]) == ns[i] {
      DecimalReadsBack(ns[i]);
      DigitsExclude(parts[i], '.');
    }
    SplitOfJoin(parts, '.');
    assert seq(|parts|, i requires 0 <= i < |parts| => Value(parts[i])) == ns;
  }

  lemma {:induction false} JoinOfSplit(s: string, c: char)
    ensures Join(Split(s, c), c) == s
  {
    if s != [] {
      var rest := Split(s[1..], c);
      JoinOfSplit(s[1..], c);
      assert s == [s[0]] + s[1..];
      if s[0] == c {
        assert ([[]] + rest)[1..] == rest;
      } else if |rest| > 1 {
        assert Prepend(s[0], rest)[1..] == rest[1..];
      }
    }
  }

  // Groups of digits with dots between them, and possibly one newline at the end.
  predicate Spells(s: string, parts: seq<string>) {
    |parts| >= 1 && (forall i :: 0 <= i < |parts| ==> AllDigits(parts[i])) && (s == Join(parts, '.') || s == Join(parts, '.') + "\n")
  }

  /** What is accepted at all: digits, then any number of dots with digits, then possibly one newline. */
  lemma ParsesIff(s: string)
    ensures ParseVersion(s).Some? <==> exists parts: seq<string> :: Spells(s, parts)
  {
    hide Join, Split, AllDigits, Value;
    var body := TrimSuffix(s, "\n");
    assert s == body || s == body + "\n";
    JoinOfSplit(body, '.');
    if ParseVersion(s).Some? { assert Spells(s, Split(body, '.')); }
    if parts: seq<string> :| Spells(s, parts) {
      JoinEndsInDigit(parts);
      NoNewlineToTrim(Join(parts, '.'));
      assert (Join(parts, '.') + "\n")[..|Join(parts, '.')|] == Join(parts, '.');
      assert body == Join(parts, '.');
      forall i | 0 <= i < |parts| ensures '.' !in parts[i] { DigitsExclude(parts[i], '.'); }
      SplitOfJoin(parts, '.');
    }
  }

  lemma {:induction false} JoinEndsInDigit(parts: seq<string>)
    requires |parts| >= 1 && forall i :: 0 <= i < |parts| ==> AllDigits(parts[i])
    ensures Join(parts, '.') != "" && IsDigit(Join(parts, '.')[|Join(parts, '.')| - 1])
  {
    assert AllDigits(parts[0]);
    if |parts| > 1 { JoinEndsInDigit(parts[1..]); }
  }

  // ---------------------------------------------------------------- what the order means

  /** One version is below another exactly when it is a proper prefix of it, or has the lower
      number in the first place where they differ. */
  lemma {:induction false} LessIff(a: seq<nat>, b: seq<nat>)
    ensures Less(a, b) <==>
            || (|a| < |b| && a == b[..|a|])
            || (exists k :: 0 <= k < |a| && k < |b| && a[..k] == b[..k] && a[k] < b[k])
  {
    if a != [] && b != [] {
      if a[0] == b[0] {
        LessIff(a[1..], b[1..]);
        assert a == [a[0]] + a[1..] && b == [b[0]] + b[1..];
        if |a| < |b| { PrefixStep(a, b); }
        FirstDifference(a, b);
      } else {
        DifferAtOnce(a, b);
        if |a| < |b| { assert b[..|a|][0] == b[0]; }
      }
    }
  }

  lemma PrefixStep(a: seq<nat>, b: seq<nat>)
    requires a != [] && |a| < |b| && a[0] == b[0]
    ensures a == b[..|a|] <==> a[1..] == b[1..][..|a| - 1]
  {
    assert b[..|a|] == [b[0]] + b[1..][..|a| - 1] && a == [a[0]] + a[1..];
  }

  lemma DifferAtOnce(a: seq<nat>, b: seq<nat>)
    requires a != [] && b != [] && a[0] != b[0]
    ensures a[..0] == b[..0] && forall k :: 0 < k < |a| && k < |b| ==> a[..k] != b[..k]
  {
    forall k | 0 < k < |a| && k < |b| ensures a[..k] != b[..k] { assert a[..k][0] == a[0] && b[..k][0] == b[0]; }
  }

  lemma FirstDifference(a: seq<nat>, b: seq<nat>)
    requires a != [] && b != [] && a[0] == b[0]
    ensures (exists k :: 0 <= k < |a| && k < |b| && a[..k] == b[..k] && a[k] < b[k])
       <==> (exists k :: 0 <= k < |a[1..]| && k < |b[1..]| && a[1..][..k] == b[1..][..k] && a[1..][k] < b[1..][k])
  {
    if k :| 0 <= k < |a| && k < |b| && a[..k] == b[..k] && a[k] < b[k] {
      assert k > 0;
      assert a[..k] == [a[0]] + a[1..][..k - 1] && b[..k] == [b[0]] + b[1..][..k - 1];
      assert a[1..][..k - 1] == a[..k][1..] && b[1..][..k - 1] == b[..k][1..];
      assert a[1..][k - 1] < b[1..][k - 1];
    }
    if k :| 0 <= k < |a[1..]| && k < |b[1..]| && a[1..][..k] == b[1..][..k] && a[1..][k] < b[1..][k] {
      assert a[..k + 1] == [a[0]] + a[1..][..k] && b[..k + 1] == [b[0]] + b[1..][..k];
      assert a[k + 1] < b[k + 1];
    }
  }
}
