/** The JavaScript string operations the catalog page relies on, restricted to
    what the page needs: `toLowerCase` and the `[A-Z]` class over ASCII,
    `includes`, `replace` of a literal string, `trim`, and `parseInt`
    without a radix argument. */
module Text {
  import opened Wrappers

  predicate IsUpperAscii(c: char)
  {
    'A' <= c <= 'Z'
  }

  /** `toLowerCase` of one character, for ASCII letters only. */
  function LowerChar(c: char): (r: char)
    ensures IsUpperAscii(c) ==> r as int == c as int + 32
    ensures !IsUpperAscii(c) ==> r == c
  {
    if IsUpperAscii(c) then (c as int + 32) as char else c
  }

  function Lower(s: string): (r: string)
    ensures |r| == |s|
    ensures forall i :: 0 <= i < |s| ==> r[i] == LowerChar(s[i])
  {
    seq(|s|, i requires 0 <= i < |s| => LowerChar(s[i]))
  }

  /** Lower-casing twice is lower-casing once. */
  lemma LowerIdempotent(s: string)
    ensures Lower(Lower(s)) == Lower(s)
  {
  }

  // ----- includes / indexOf / replace -----

  /** `t` occurs in `s` starting at index `i`. */
  ghost predicate OccursAt(s: string, t: string, i: int)
  {
    0 <= i && i + |t| <= |s| && s[i..i + |t|] == t
  }

  /** `s.indexOf(t)`: the first index at which `t` occurs, `None` for -1. */
  function IndexOf(s: string, t: string): (r: Option<nat>)
    ensures r.Some? ==> r.value + |t| <= |s|
    decreases |s|
  {
    if |t| <= |s| && s[..|t|] == t then Some(0)
    else if s == [] then None
    else match IndexOf(s[1..], t)
      case Some(i) => Some(i + 1)
      case None => None
  }

  /** `IndexOf` finds the first occurrence, and reports none exactly when
      there is none. */
  lemma {:induction false} IndexOfSpec(s: string, t: string)
    ensures IndexOf(s, t).Some? ==> OccursAt(s, t, IndexOf(s, t).value)
    ensures IndexOf(s, t).Some? ==> forall j :: 0 <= j < IndexOf(s, t).value ==> !OccursAt(s, t, j)
    ensures IndexOf(s, t).None? ==> forall j :: !OccursAt(s, t, j)
    decreases |s|
  {
    if !(|t| <= |s| && s[..|t|] == t) && s != [] {
      IndexOfSpec(s[1..], t);
      forall j | 0 <= j
        ensures OccursAt(s[1..], t, j) <==> OccursAt(s, t, j + 1)
      {
        if j + |t| <= |s[1..]| {
          assert s[1..][j..j + |t|] == s[j + 1..j + 1 + |t|];
        }
      }
      assert !OccursAt(s, t, 0);
      assert forall j :: OccursAt(s, t, j) ==> j == 0 || OccursAt(s[1..], t, j - 1);
    }
  }

  /** `s.includes(t)`. */
  function Contains(s: string, t: string): bool
  {
    IndexOf(s, t).Some?
  }

  /** `includes` holds exactly when `t` occurs somewhere in `s`. */
  lemma ContainsSpec(s: string, t: string)
    ensures Contains(s, t) <==> exists i :: OccursAt(s, t, i)
  {
    IndexOfSpec(s, t);
  }

  /** The empty string occurs in every string. */
  lemma ContainsEmpty(s: string)
    ensures Contains(s, "")
  {
    assert s[..0] == "";
  }

  /** `s.replace(pat, rep)` with a string pattern: only the first occurrence is replaced. */
  function ReplaceFirst(s: string, pat: string, rep: string): string
  {
    match IndexOf(s, pat)
    case None => s
    case Some(i) => s[..i] + rep + s[i + |pat|..]
  }

  /** With no occurrence of `pat` the string is unchanged; otherwise the
      first occurrence, and only it, is replaced by `rep`. */
  lemma ReplaceFirstSpec(s: string, pat: string, rep: string)
    ensures (forall j :: !OccursAt(s, pat, j)) ==> ReplaceFirst(s, pat, rep) == s
    ensures forall i :: OccursAt(s, pat, i) && (forall j :: 0 <= j < i ==> !OccursAt(s, pat, j)) ==>
      ReplaceFirst(s, pat, rep) == s[..i] + rep + s[i + |pat|..]
  {
    IndexOfSpec(s, pat);
  }

  /** Removing the first occurrence of `pat` from `pat + s` leaves `s`. */
  lemma ReplaceFirstOfPrefix(pat: string, s: string)
    ensures ReplaceFirst(pat + s, pat, "") == s
  {
    assert (pat + s)[..|pat|] == pat;
    assert (pat + s)[|pat|..] == s;
  }

  // ----- whitespace and trim -----

  /** ECMAScript white space and line terminators (the Unicode `Zs` category
      is represented by its two Latin-1 members). */
  predicate IsWhitespace(c: char)
  {
    c == ' ' || c == '\t' || c == '\n' || c == '\r' || c == '\U{B}' || c == '\U{C}'
    || c == '\U{A0}' || c == '\U{FEFF}' || c == '\U{2028}' || c == '\U{2029}'
  }

  /** `trimStart`: drops leading white space. */
  function TrimStart(s: string): string
    decreases |s|
  {
    if s != [] && IsWhitespace(s[0]) then TrimStart(s[1..]) else s
  }

  /** `trimEnd`: drops trailing white space. */
  function TrimEnd(s: string): string
    decreases |s|
  {
    if s != [] && IsWhitespace(s[|s| - 1]) then TrimEnd(s[..|s| - 1]) else s
  }

  /** `s.trim()`. */
  function Trim(s: string): string
  {
    TrimEnd(TrimStart(s))
  }

  /** `TrimStart` cuts a prefix made of white space only, and what is left
      does not start with white space. */
  lemma {:induction false} TrimStartSpec(s: string)
    ensures |TrimStart(s)| <= |s| && TrimStart(s) == s[|s| - |TrimStart(s)|..]
    ensures forall i :: 0 <= i < |s| - |TrimStart(s)| ==> IsWhitespace(s[i])
    ensures TrimStart(s) != [] ==> !IsWhitespace(TrimStart(s)[0])
    decreases |s|
  {
    if s != [] && IsWhitespace(s[0]) {
      TrimStartSpec(s[1..]);
    }
  }

  /** `TrimEnd` cuts a suffix made of white space only, and what is left
      does not end with white space. */
  lemma {:induction false} TrimEndSpec(s: string)
    ensures |TrimEnd(s)| <= |s| && TrimEnd(s) == s[..|TrimEnd(s)|]
    ensures forall i :: |TrimEnd(s)| <= i < |s| ==> IsWhitespace(s[i])
    ensures TrimEnd(s) != [] ==> !IsWhitespace(TrimEnd(s)[|TrimEnd(s)| - 1])
    decreases |s|
  {
    if s != [] && IsWhitespace(s[|s| - 1]) {
      var front := s[..|s| - 1];
      TrimEndSpec(front);
      assert forall i :: 0 <= i < |front| ==> front[i] == s[i];
    }
  }

  /** The trimmed string neither starts nor ends with white space, and is
      the slice of `s` between two cuts that remove only white space. */
  lemma TrimSpec(s: string) returns (a: nat, b: nat)
    ensures TrimCut(s, a, b) && Trim(s) == s[a..b]
    ensures Trim(s) == [] || (!IsWhitespace(Trim(s)[0]) && !IsWhitespace(Trim(s)[|Trim(s)| - 1]))
  {
    var t := TrimStart(s);
    TrimStartSpec(s);
    TrimEndSpec(t);
    var r := TrimEnd(t);
    a := |s| - |t|;
    b := a + |r|;
    assert forall i :: b <= i < |s| ==> s[i] == t[i - a];
    if r != [] {
      assert r[0] == t[0];
    }
  }

  /** `s[..a]` and `s[b..]` consist of white space only. */
  ghost predicate TrimCut(s: string, a: int, b: int)
  {
    0 <= a <= b <= |s|
    && (forall i :: 0 <= i < a ==> IsWhitespace(s[i]))
    && (forall i :: b <= i < |s| ==> IsWhitespace(s[i]))
  }

  // ----- the bench label: replace(/([A-Z])/g, " $1") -----

  /** Inserts a space before every ASCII capital letter. */
  function SpaceBeforeCapitals(s: string): (r: string)
    ensures forall c :: c in r && c != ' ' ==> c in s
    decreases |s|
  {
    if s == [] then []
    else (if IsUpperAscii(s[0]) then [' ', s[0]] else [s[0]]) + SpaceBeforeCapitals(s[1..])
  }

  /** Deletes every space character. */
  function DeleteSpaces(s: string): (r: string)
    ensures ' ' !in r
    ensures |r| <= |s|
    decreases |s|
  {
    if s == [] then [] else (if s[0] == ' ' then [] else [s[0]]) + DeleteSpaces(s[1..])
  }

  lemma {:induction false} DeleteSpacesAppend(a: string, b: string)
    ensures DeleteSpaces(a + b) == DeleteSpaces(a) + DeleteSpaces(b)
    decreases |a|
  {
    if a != [] {
      var h := if a[0] == ' ' then [] else [a[0]];
      assert (a + b)[0] == a[0];
      assert (a + b)[1..] == a[1..] + b;
      DeleteSpacesAppend(a[1..], b);
      calc {
        DeleteSpaces(a + b);
        h + DeleteSpaces(a[1..] + b);
        h + (DeleteSpaces(a[1..]) + DeleteSpaces(b));
        (h + DeleteSpaces(a[1..])) + DeleteSpaces(b);
        DeleteSpaces(a) + DeleteSpaces(b);
      }
    } else {
      assert a + b == b;
    }
  }

  lemma {:induction false} DeleteSpacesOfSpaces(s: string)
    requires forall i :: 0 <= i < |s| ==> s[i] == ' '
    ensures DeleteSpaces(s) == []
    decreases |s|
  {
    if s != [] {
      DeleteSpacesOfSpaces(s[1..]);
    }
  }

  /** Deleting the spaces after inserting them before capitals gives the
      input back, provided the input had no spaces of its own. */
  lemma {:induction false} DeleteInsertedSpaces(s: string)
    requires ' ' !in s
    ensures DeleteSpaces(SpaceBeforeCapitals(s)) == s
    decreases |s|
  {
    if s != [] {
      var head := if IsUpperAscii(s[0]) then [' ', s[0]] else [s[0]];
      DeleteSpacesAppend(head, SpaceBeforeCapitals(s[1..]));
      DeleteInsertedSpaces(s[1..]);
      assert DeleteSpaces(head) == [s[0]];
      assert s == [s[0]] + s[1..];
    }
  }

  /** The only white space in `SpaceBeforeCapitals(s)` is the inserted spaces
      when `s` has none of its own. */
  lemma {:induction false} InsertedWhitespaceIsSpace(s: string)
    requires forall i :: 0 <= i < |s| ==> !IsWhitespace(s[i])
    ensures forall c :: c in SpaceBeforeCapitals(s) && IsWhitespace(c) ==> c == ' '
  {
  }

  /** A run of white space in a string whose only white space is the space
      character vanishes under `DeleteSpaces`. */
  lemma WhitespaceRunDeleted(s: string, lo: nat, hi: nat)
    requires lo <= hi <= |s|
    requires forall c :: c in s && IsWhitespace(c) ==> c == ' '
    requires forall i :: lo <= i < hi ==> IsWhitespace(s[i])
    ensures DeleteSpaces(s[lo..hi]) == []
  {
    var run := s[lo..hi];
    forall k | 0 <= k < |run| ensures run[k] == ' ' {
      assert run[k] == s[lo + k] && s[lo + k] in s;
    }
    DeleteSpacesOfSpaces(run);
  }

  /** When the only white space in `s` is the space character, trimming
      removes nothing but spaces. */
  lemma TrimDeletesOnlySpaces(s: string)
    requires forall c :: c in s && IsWhitespace(c) ==> c == ' '
    ensures DeleteSpaces(Trim(s)) == DeleteSpaces(s)
  {
    var a, b := TrimSpec(s);
    WhitespaceRunDeleted(s, 0, a);
    WhitespaceRunDeleted(s, b, |s|);
    var pre, mid, post := s[0..a], s[a..b], s[b..|s|];
    assert Trim(s) == mid;
    assert s == pre + (mid + post);
    DeleteSpacesAppend(pre, mid + post);
    DeleteSpacesAppend(mid, post);
    assert DeleteSpaces(s) == [] + (DeleteSpaces(mid) + []);
  }

  // ----- parseInt -----

  predicate IsRadixDigit(c: char, radix: nat)
  {
    if radix == 16 then '0' <= c <= '9' || 'a' <= c <= 'f' || 'A' <= c <= 'F'
    else '0' <= c <= '9'
  }

  function DigitValue(c: char): (d: nat)
    ensures '0' <= c <= '9' ==> d < 10
    ensures IsRadixDigit(c, 16) ==> d < 16
  {
    if '0' <= c <= '9' then c as int - '0' as int
    else if 'a' <= c <= 'f' then c as int - 'a' as int + 10
    else if 'A' <= c <= 'F' then c as int - 'A' as int + 10
    else 0
  }

  /** Length of the longest prefix of `s` made of digits of `radix`. */
  function LeadingDigits(s: string, radix: nat): (n: nat)
    ensures n <= |s|
  {
    if s != [] && IsRadixDigit(s[0], radix) then 1 + LeadingDigits(s[1..], radix) else 0
  }

  /** The prefix is made of digits and is as long as possible. */
  lemma {:induction false} LeadingDigitsSpec(s: string, radix: nat)
    ensures forall i :: 0 <= i < LeadingDigits(s, radix) ==> IsRadixDigit(s[i], radix)
    ensures LeadingDigits(s, radix) < |s| ==> !IsRadixDigit(s[LeadingDigits(s, radix)], radix)
  {
    if s != [] && IsRadixDigit(s[0], radix) {
      LeadingDigitsSpec(s[1..], radix);
      assert forall i :: 1 <= i < |s| ==> s[i] == s[1..][i - 1];
    }
  }

  /** The number a digit string denotes in `radix`, most significant digit first. */
  function DigitsValue(ds: string, radix: nat): nat
    decreases |ds|
  {
    if ds == [] then 0 else DigitsValue(ds[..|ds| - 1], radix) * radix + DigitValue(ds[|ds| - 1])
  }

  /** `parseInt(s)` with no radix: leading white space is skipped, one sign is
      read, a `0x`/`0X` prefix selects base 16, and the longest run of digits
      is converted; `None` is `NaN` (no digit at all). */
  function ParseInt(s: string): Option<int>
  {
    var t := TrimStart(s);
    var negative := t != [] && t[0] == '-';
    var u := if t != [] && (t[0] == '-' || t[0] == '+') then t[1..] else t;
    var hex := |u| >= 2 && u[0] == '0' && (u[1] == 'x' || u[1] == 'X');
    var radix := if hex then 16 else 10;
    var v := if hex then u[2..] else u;
    var n := LeadingDigits(v, radix);
    var magnitude: int := DigitsValue(v[..n], radix);
    if n == 0 then None else if negative then Some(-magnitude) else Some(magnitude)
  }

  /** A non-empty run of decimal digits parses to the number it denotes. */
  lemma ParseIntDigits(ds: string)
    requires ds != []
    requires forall i :: 0 <= i < |ds| ==> '0' <= ds[i] <= '9'
    ensures ParseInt(ds) == Some(DigitsValue(ds, 10))
  {
    assert !IsWhitespace(ds[0]);
    assert TrimStart(ds) == ds;
    assert ds[0] != '-' && ds[0] != '+';
    assert !(|ds| >= 2 && ds[0] == '0' && (ds[1] == 'x' || ds[1] == 'X'));
    LeadingDigitsSpec(ds, 10);
    assert LeadingDigits(ds, 10) == |ds|;
    assert ds[..|ds|] == ds;
  }

  /** Decimal notation of a natural number, without leading zeros. */
  function DecimalString(n: nat): (r: string)
    ensures r != []
    ensures forall i :: 0 <= i < |r| ==> '0' <= r[i] <= '9'
    ensures |r| > 1 ==> r[0] != '0'
  {
    var last := [('0' as int + n % 10) as char];
    if n < 10 then last else DecimalString(n / 10) + last
  }

  /** `DigitsValue` inverts `DecimalString`. */
  lemma {:induction false} DecimalStringValue(n: nat)
    ensures DigitsValue(DecimalString(n), 10) == n
  {
    var r := DecimalString(n);
    if n >= 10 {
      DecimalStringValue(n / 10);
      assert r[..|r| - 1] == DecimalString(n / 10);
    }
  }
}
