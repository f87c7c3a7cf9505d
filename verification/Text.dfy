/** The string operations the parser relies on: trimming, replacement, decimal numbers. */
module Text {
  import opened Common

  /** The characters `str::trim` removes: those with the Unicode White_Space property. */
  predicate IsWhite(c: char) {
    || '\U{0009}' <= c <= '\U{000D}' || c == ' ' || c == '\U{0085}' || c == '\U{00A0}' || c == '\U{1680}'
    || '\U{2000}' <= c <= '\U{200A}' || c == '\U{2028}' || c == '\U{2029}' || c == '\U{202F}' || c == '\U{205F}'
    || c == '\U{3000}'
  }

  function TrimStart(s: string): string {
    if s != [] && IsWhite(s[0]) then TrimStart(s[1..]) else s
  }

  function TrimEnd(s: string): string {
    if s != [] && IsWhite(s[|s| - 1]) then TrimEnd(s[..|s| - 1]) else s
  }

  function Trim(s: string): string {
    TrimEnd(TrimStart(s))
  }

  predicate Tight(s: string) {
    s != [] ==> !IsWhite(s[0]) && !IsWhite(s[|s| - 1])
  }

  lemma TrimmedIsTight(s: string)
    ensures Tight(Trim(s))
  {
    StartTrimmed(s);
    EndTrimmed(TrimStart(s));
  }

  lemma {:induction false} StartTrimmed(s: string)
    ensures TrimStart(s) != [] ==> !IsWhite(TrimStart(s)[0])
  {
    if s != [] && IsWhite(s[0]) { StartTrimmed(s[1..]); }
  }

  lemma {:induction false} EndTrimmed(s: string)
    requires s != [] ==> !IsWhite(s[0])
    ensures Tight(TrimEnd(s))
    decreases |s|
  {
    if s != [] && IsWhite(s[|s| - 1]) { EndTrimmed(s[..|s| - 1]); }
  }

  /** Trimming takes off the white space at both ends, and nothing else. */
  lemma TrimExactly(s: string) returns (a: nat, b: nat)
    ensures a <= b <= |s| && Trim(s) == s[a..b] && (a < b ==> !IsWhite(s[a]) && !IsWhite(s[b - 1]))
    ensures forall i :: 0 <= i < |s| && !(a <= i < b) ==> IsWhite(s[i])
  {
    hide IsWhite;
    a := TrimStartIs(s);
    var n := TrimEndIs(s[a..]);
    b := a + n;
    assert s[a..][..n] == s[a..b];
    forall i | b <= i < |s| ensures IsWhite(s[i]) { assert s[i] == s[a..][i - a]; }
  }

  lemma {:induction false} TrimStartIs(s: string) returns (a: nat)
    ensures a <= |s| && TrimStart(s) == s[a..] && (a < |s| ==> !IsWhite(s[a]))
    ensures forall i :: 0 <= i < a ==> IsWhite(s[i])
  {
    hide IsWhite;
    if s != [] && IsWhite(s[0]) {
      var n := TrimStartIs(s[1..]);
      a := n + 1;
      forall i | 0 <= i < a ensures IsWhite(s[i]) {
        if i > 0 { assert s[i] == s[1..][i - 1]; }
      }
    } else {
      a := 0;
    }
  }

  lemma {:induction false} TrimEndIs(s: string) returns (b: nat)
    ensures b <= |s| && TrimEnd(s) == s[..b] && (b > 0 ==> !IsWhite(s[b - 1]))
    ensures forall i :: b <= i < |s| ==> IsWhite(s[i])
    decreases |s|
  {
    hide IsWhite;
    if s != [] && IsWhite(s[|s| - 1]) {
      b := TrimEndIs(s[..|s| - 1]);
      assert s[..|s| - 1][..b] == s[..b];
      forall i | b <= i < |s| - 1 ensures IsWhite(s[i]) { assert s[i] == s[..|s| - 1][i]; }
    } else {
      b := |s|;
    }
  }

  // ---- replacement --------------------------------------------------------------

  /** `str::replace`: occurrences from the left, none overlapping another. */
  function Replace(s: string, pat: string, to: string): string
    requires pat != []
    decreases |s|
  {
    if s == [] then []
    else if pat <= s then to + Replace(s[|pat|..], pat, to)
    else [s[0]] + Replace(s[1..], pat, to)
  }

  /** A stretch without the pattern's first character is left alone. */
  lemma {:induction false} ReplaceSkips(t: string, s: string, pat: string, to: string)
    requires pat != [] && pat[0] !in t
    ensures Replace(t + s, pat, to) == t + Replace(s, pat, to)
    decreases |t|
  {
    if t == [] {
      assert t + s == s;
    } else {
      assert (t + s)[1..] == t[1..] + s;
      assert t[0] in t;
      ReplaceSkips(t[1..], s, pat, to);
      assert [t[0]] + (t[1..] + Replace(s, pat, to)) == t + Replace(s, pat, to);
    }
  }

  lemma ReplaceHit(s: string, pat: string, to: string)
    requires pat != []
    ensures Replace(pat + s, pat, to) == to + Replace(s, pat, to)
  {
    assert (pat + s)[|pat|..] == s;
  }

  /** Replacing by a visible character leaves a trimmed string trimmed, and a non-empty one non-empty. */
  lemma {:induction false} ReplaceEnds(s: string, pat: string, c: char)
    requires pat != [] && s != [] && !IsWhite(s[|s| - 1]) && !IsWhite(c)
    ensures Replace(s, pat, [c]) != [] && !IsWhite(Replace(s, pat, [c])[|Replace(s, pat, [c])| - 1])
    decreases |s|
  {
    hide IsWhite;
    var (head, rest) := if pat <= s then ([c], s[|pat|..]) else ([s[0]], s[1..]);
    assert Replace(s, pat, [c]) == head + Replace(rest, pat, [c]);
    if rest != [] {
      assert rest[|rest| - 1] == s[|s| - 1];
      ReplaceEnds(rest, pat, c);
    }
  }

  lemma ReplaceTight(s: string, pat: string, c: char)
    requires pat != [] && Tight(s) && !IsWhite(c)
    ensures Tight(Replace(s, pat, [c])) && (s != [] ==> Replace(s, pat, [c]) != [])
  {
    if s != [] { ReplaceEnds(s, pat, c); }
  }

  // ---- decimal numbers ------------------------------------------------------------

  function Digit(n: nat): char
    requires n < 10
  {
    ('0' as int + n) as char
  }

  function Decimal(n: nat): string {
    if n < 10 then [Digit(n)] else Decimal(n / 10) + [Digit(n % 10)]
  }

  predicate AllDigits(s: string) {
    forall i :: 0 <= i < |s| ==> '0' <= s[i] <= '9'
  }

  function Value(s: string): nat
    requires AllDigits(s)
  {
    if s == [] then 0 else Value(s[..|s| - 1]) * 10 + (s[|s| - 1] as int - '0' as int)
  }

  /** `str::parse::<u64>`: an optional `+`, then digits, not above the largest `u64`. */
  function ParseU64(s: string): Option<nat> {
    var digits := if s != [] && s[0] == '+' then s[1..] else s;
    if digits == [] || !AllDigits(digits) || Value(digits) > U64_MAX then None else Some(Value(digits))
  }

  lemma {:induction false} DecimalRoundTrip(n: nat)
    ensures Decimal(n) != [] && AllDigits(Decimal(n)) && Value(Decimal(n)) == n
  {
    if n >= 10 {
      DecimalRoundTrip(n / 10);
      var s := Decimal(n / 10);
      assert (s + [Digit(n % 10)])[..|s|] == s;
    } else {
      assert [Digit(n)][..0] == [];
    }
  }

  lemma ParsesItsDecimal(n: nat)
    requires n <= U64_MAX
    ensures ParseU64(Decimal(n)) == Some(n) && Tight(Decimal(n)) && '<' !in Decimal(n)
  {
    DecimalRoundTrip(n);
    var s := Decimal(n);
    assert '0' <= s[0] <= '9' && '0' <= s[|s| - 1] <= '9';
  }
}
