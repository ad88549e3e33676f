/** The few Python string operations the bot relies on: `str.split(sep)`,
    `sep.join(parts)`, `str.replace(pat, rep)`, `str.capitalize()`,
    `str.endswith(suffix)`, and the decimal rendering of a whole number
    (what an f-string prints for an `int`). */
module Text {

  predicate StartsWith(s: string, prefix: string)
  {
    |prefix| <= |s| && s[..|prefix|] == prefix
  }

  predicate EndsWith(s: string, suffix: string)
  {
    |suffix| <= |s| && s[|s| - |suffix|..] == suffix
  }

  // ---------------------------------------------------------------------
  // Decimal numbers

  predicate IsDigit(c: char)
  {
    '0' <= c <= '9'
  }

  predicate AllDigits(s: string)
  {
    forall i :: 0 <= i < |s| ==> IsDigit(s[i])
  }

  function DigitChar(d: nat): (c: char)
    requires d < 10
    ensures IsDigit(c) && c as int - '0' as int == d
  {
    ('0' as int + d) as char
  }

  /** The decimal text of `n`, without leading zeros. */
  function NatToString(n: nat): (s: string)
    ensures |s| > 0 && AllDigits(s)
    ensures s[0] == '0' ==> n == 0
    decreases n
  {
    if n < 10 then [DigitChar(n)] else NatToString(n / 10) + [DigitChar(n % 10)]
  }

  /** The value of a string of decimal digits (the empty string reads as 0). */
  function ParseNat(s: string): nat
    requires AllDigits(s)
    decreases |s|
  {
    if s == [] then 0
    else ParseNat(s[..|s| - 1]) * 10 + (s[|s| - 1] as int - '0' as int)
  }

  /** Reading back the decimal text of a number gives the number. */
  lemma {:induction false} ParseNatToString(n: nat)
    ensures ParseNat(NatToString(n)) == n
    decreases n
  {
    var s := NatToString(n);
    if n >= 10 {
      var p := NatToString(n / 10);
      assert s[..|s| - 1] == p;
      ParseNatToString(n / 10);
    } else {
      assert s[..|s| - 1] == [];
    }
  }

  // ---------------------------------------------------------------------
  // str.join and str.split

  /** Python's `sep.join(parts)`. */
  function Join(parts: seq<string>, sep: string): string
    decreases |parts|
  {
    if |parts| == 0 then ""
    else if |parts| == 1 then parts[0]
    else parts[0] + sep + Join(parts[1..], sep)
  }

  /** Python's `s.split(sep)` for a non-empty separator: the pieces between
      non-overlapping occurrences of `sep`, scanned from the left; there is
      always at least one piece. */
  function Split(s: string, sep: string): (r: seq<string>)
    requires |sep| > 0
    ensures |r| > 0
    decreases |s|
  {
    if StartsWith(s, sep) then [""] + Split(s[|sep|..], sep)
    else if s == [] then [""]
    else
      var rest := Split(s[1..], sep);
      [[s[0]] + rest[0]] + rest[1..]
  }

  /** A prefix free of the separator's first character joins the first piece. */
  lemma {:induction false} SplitFreePrefix(a: string, t: string, sep: string)
    requires |sep| > 0 && sep[0] !in a
    ensures Split(a + t, sep) == [a + Split(t, sep)[0]] + Split(t, sep)[1..]
    decreases |a|
  {
    if a == [] {
      var r := Split(t, sep);
      assert a + t == t && a + r[0] == r[0];
      assert r == [r[0]] + r[1..];
    } else {
      var s := a + t;
      assert s[0] == a[0];
      assert !StartsWith(s, sep);
      assert s[1..] == a[1..] + t;
      SplitFreePrefix(a[1..], t, sep);
      assert [s[0]] + (a[1..] + Split(t, sep)[0]) == a + Split(t, sep)[0];
    }
  }

  /** Splitting a join gives the parts back when no part contains the
      separator's first character. */
  lemma {:induction false} SplitJoin(parts: seq<string>, sep: string)
    requires |sep| > 0 && |parts| > 0
    requires forall i :: 0 <= i < |parts| ==> sep[0] !in parts[i]
    ensures Split(Join(parts, sep), sep) == parts
    decreases |parts|
  {
    if |parts| == 1 {
      SplitFreePrefix(parts[0], "", sep);
      assert parts[0] + "" == parts[0];
      assert !StartsWith("", sep);
    } else {
      var tail := Join(parts[1..], sep);
      assert Join(parts, sep) == parts[0] + (sep + tail);
      SplitFreePrefix(parts[0], sep + tail, sep);
      assert StartsWith(sep + tail, sep);
      assert (sep + tail)[|sep|..] == tail;
      SplitJoin(parts[1..], sep);
      assert Split(sep + tail, sep) == [""] + parts[1..];
      assert parts[0] + Split(sep + tail, sep)[0] == parts[0];
      assert Split(sep + tail, sep)[1..] == parts[1..];
      assert [parts[0]] + parts[1..] == parts;
    }
  }

  /** The first piece of a split is the longest prefix before the first
      occurrence of the separator. */
  lemma {:induction false} SplitFirst(s: string, sep: string)
    requires |sep| > 0
    ensures var h := Split(s, sep)[0];
      h <= s &&
      (h == s || StartsWith(s[|h|..], sep)) &&
      forall k :: 0 <= k < |h| ==> !StartsWith(s[k..], sep)
    decreases |s|
  {
    var h := Split(s, sep)[0];
    if StartsWith(s, sep) {
      assert h == "";
      assert s[0..] == s;
    } else if s == [] {
    } else {
      SplitFirst(s[1..], sep);
      var h' := Split(s[1..], sep)[0];
      assert h == [s[0]] + h';
      assert s == [s[0]] + s[1..];
      assert s[|h|..] == s[1..][|h'|..];
      forall k | 0 <= k < |h|
        ensures !StartsWith(s[k..], sep)
      {
        if k > 0 {
          assert s[k..] == s[1..][k - 1..];
        } else {
          assert s[k..] == s;
        }
      }
    }
  }

  // ---------------------------------------------------------------------
  // str.replace

  /** Python's `s.replace(pat, rep)`: every non-overlapping occurrence of
      `pat`, scanned from the left, becomes `rep`. */
  function Replace(s: string, pat: string, rep: string): string
    requires |pat| > 0
    decreases |s|
  {
    if StartsWith(s, pat) then rep + Replace(s[|pat|..], pat, rep)
    else if s == [] then []
    else [s[0]] + Replace(s[1..], pat, rep)
  }

  /** Where the pattern does not start, the first character is kept. */
  lemma ReplaceSkip(s: string, pat: string, rep: string)
    requires |pat| > 0 && s != [] && !StartsWith(s, pat)
    ensures Replace(s, pat, rep) == [s[0]] + Replace(s[1..], pat, rep)
  {
  }

  /** A leading occurrence of the pattern is replaced. */
  lemma ReplaceHit(t: string, pat: string, rep: string)
    requires |pat| > 0
    ensures Replace(pat + t, pat, rep) == rep + Replace(t, pat, rep)
  {
    assert StartsWith(pat + t, pat);
    assert (pat + t)[|pat|..] == t;
  }

  /** A prefix that lacks the pattern's first character is left as it is. */
  lemma {:induction false} ReplaceFreePrefix(a: string, t: string, pat: string, rep: string)
    requires |pat| > 0 && pat[0] !in a
    ensures Replace(a + t, pat, rep) == a + Replace(t, pat, rep)
    decreases |a|
  {
    if a == [] {
      assert a + t == t;
    } else {
      var s := a + t;
      assert s[0] == a[0];
      assert !StartsWith(s, pat);
      assert s[1..] == a[1..] + t;
      ReplaceFreePrefix(a[1..], t, pat, rep);
      assert [s[0]] + (a[1..] + Replace(t, pat, rep)) == a + Replace(t, pat, rep);
    }
  }

  /** A string in which the pattern starts nowhere comes back unchanged. */
  lemma {:induction false} ReplaceAbsent(s: string, pat: string, rep: string)
    requires |pat| > 0
    requires forall k :: 0 <= k <= |s| ==> !StartsWith(s[k..], pat)
    ensures Replace(s, pat, rep) == s
    decreases |s|
  {
    assert s[0..] == s;
    if s != [] {
      forall k | 0 <= k <= |s[1..]|
        ensures !StartsWith(s[1..][k..], pat)
      {
        assert s[1..][k..] == s[k + 1..];
      }
      ReplaceAbsent(s[1..], pat, rep);
      assert [s[0]] + s[1..] == s;
    }
  }

  // ---------------------------------------------------------------------
  // str.capitalize (on ASCII letters)

  predicate IsUpper(c: char) { 'A' <= c <= 'Z' }

  predicate IsLower(c: char) { 'a' <= c <= 'z' }

  function ToUpper(c: char): (u: char)
    ensures !IsLower(u)
    ensures IsLower(c) ==> IsUpper(u) && u as int == c as int - 32
    ensures !IsLower(c) ==> u == c
  {
    if IsLower(c) then (c as int - 32) as char else c
  }

  function ToLower(c: char): (l: char)
    ensures !IsUpper(l)
    ensures IsUpper(c) ==> IsLower(l) && l as int == c as int + 32
    ensures !IsUpper(c) ==> l == c
  {
    if IsUpper(c) then (c as int + 32) as char else c
  }

  /** Python's `s.capitalize()`: the first character upper-cased, the rest
      lower-cased. */
  function Capitalize(s: string): (r: string)
    ensures |r| == |s|
    ensures |s| > 0 ==> r[0] == ToUpper(s[0])
    ensures forall i :: 1 <= i < |s| ==> r[i] == ToLower(s[i])
  {
    if s == [] then [] else [ToUpper(s[0])] + seq(|s| - 1, i requires 0 <= i < |s| - 1 => ToLower(s[i + 1]))
  }

  /** Capitalizing twice is capitalizing once, and nothing upper-case is left
      after the first character. */
  lemma CapitalizeIdempotent(s: string)
    ensures Capitalize(Capitalize(s)) == Capitalize(s)
    ensures forall i :: 1 <= i < |s| ==> !IsUpper(Capitalize(s)[i])
    ensures |s| > 0 ==> !IsLower(Capitalize(s)[0])
  {
    var c := Capitalize(s);
    var cc := Capitalize(c);
    assert |cc| == |c|;
    forall i | 0 <= i < |c|
      ensures cc[i] == c[i]
    {
      if i == 0 {
        assert cc[0] == ToUpper(ToUpper(s[0]));
      } else {
        assert cc[i] == ToLower(ToLower(s[i]));
      }
    }
  }
}
