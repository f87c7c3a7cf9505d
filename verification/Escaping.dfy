/** `xml_escape` and `xml_unescape`: four replacements each, in opposite orders. */
module Escaping {
  import opened Common
  import opened Text

  const AMP := "&amp;"
  const LT := "&lt;"
  const GT := "&gt;"
  const QUOT := "&quot;"

  function Escape(s: string): string {
    Replace(Replace(Replace(Replace(s, "&", AMP), "<", LT), ">", GT), "\"", QUOT)
  }

  function Unescape(s: string): string {
    Replace(Replace(Replace(Replace(s, QUOT, "\""), GT, ">"), LT, "<"), AMP, "&")
  }

  /** The character that the `k`-th replacement escapes, and its entity. */
  function Special(k: nat): char
    requires k < 4
  {
    ['&', '<', '>', '"'][k]
  }

  function Entity(k: nat): string
    requires k < 4
  {
    [AMP, LT, GT, QUOT][k]
  }

  /** A character after the first `k` replacements. */
  function Stage1(c: char, k: nat): string
    requires k <= 4
  {
    if k >= 1 && c == '&' then "&amp;"
    else if k >= 2 && c == '<' then "&lt;"
    else if k >= 3 && c == '>' then "&gt;"
    else if k >= 4 && c == '"' then "&quot;"
    else [c]
  }

  function Stage(s: string, k: nat): string
    requires k <= 4
  {
    if s == [] then [] else Stage1(s[0], k) + Stage(s[1..], k)
  }

  lemma {:induction false} NoStage(s: string)
    ensures Stage(s, 0) == s
  {
    if s != [] { NoStage(s[1..]); }
  }

  lemma EscapeOne(c: char, k: nat, s: string)
    requires k < 4
    ensures Replace(Stage1(c, k) + s, [Special(k)], Entity(k)) == Stage1(c, k + 1) + Replace(s, [Special(k)], Entity(k))
  {
    if c == Special(k) {
      ReplaceHit(s, [Special(k)], Entity(k));
    } else {
      ReplaceSkips(Stage1(c, k), s, [Special(k)], Entity(k));
    }
  }

  lemma {:induction false} EscapeStage(s: string, k: nat)
    requires k < 4
    ensures Replace(Stage(s, k), [Special(k)], Entity(k)) == Stage(s, k + 1)
    decreases |s|
  {
    if s != [] {
      EscapeOne(s[0], k, Stage(s[1..], k));
      EscapeStage(s[1..], k);
    }
  }

  /** Every `&` of an escaped string starts an entity, and no two entities share their second character. */
  lemma UnescapeOne(c: char, k: nat, s: string)
    requires k < 4
    ensures Replace(Stage1(c, k + 1) + s, Entity(k), [Special(k)]) == Stage1(c, k) + Replace(s, Entity(k), [Special(k)])
  {
    var t := Stage1(c, k + 1);
    if c == Special(k) {
      ReplaceHit(s, Entity(k), [Special(k)]);
    } else if |t| == 1 {
      ReplaceSkips(t, s, Entity(k), [Special(k)]);
    } else {
      assert t[1] != Entity(k)[1] && (t + s)[1] == t[1];
      assert (t + s)[1..] == t[1..] + s;
      ReplaceSkips(t[1..], s, Entity(k), [Special(k)]);
      assert ['&'] + (t[1..] + Replace(s, Entity(k), [Special(k)])) == t + Replace(s, Entity(k), [Special(k)]);
    }
  }

  lemma {:induction false} UnescapeStage(s: string, k: nat)
    requires k < 4
    ensures Replace(Stage(s, k + 1), Entity(k), [Special(k)]) == Stage(s, k)
    decreases |s|
  {
    if s != [] {
      UnescapeOne(s[0], k, Stage(s[1..], k + 1));
      UnescapeStage(s[1..], k);
    }
  }

  /** The four replacements together escape character by character. */
  lemma EscapesByCharacter(s: string)
    ensures Escape(s) == Stage(s, 4)
  {
    NoStage(s);
    EscapeStage(s, 0);
    EscapeStage(s, 1);
    EscapeStage(s, 2);
    EscapeStage(s, 3);
  }

  /** Unescaping undoes escaping, on every string. */
  lemma UnescapeEscape(s: string)
    ensures Unescape(Escape(s)) == s
  {
    hide Replace, Stage;
    EscapesByCharacter(s);
    UnescapeStage(s, 3);
    UnescapeStage(s, 2);
    UnescapeStage(s, 1);
    UnescapeStage(s, 0);
    NoStage(s);
  }

  /** Escaped text hides no tag. */
  lemma {:induction false} NoTagInside(s: string)
    ensures '<' !in Stage(s, 4) && '>' !in Stage(s, 4)
  {
    if s != [] { NoTagInside(s[1..]); }
  }

  lemma {:induction false} StageEnds(s: string)
    requires s != [] && !IsWhite(s[|s| - 1])
    ensures Stage(s, 4) != [] && !IsWhite(Stage(s, 4)[|Stage(s, 4)| - 1])
    decreases |s|
  {
    assert !IsWhite(';');
    if |s| > 1 {
      StageEnds(s[1..]);
    } else {
      assert Stage(s[1..], 4) == [];
    }
  }

  lemma EscapedIsTight(s: string)
    requires Tight(s)
    ensures Tight(Escape(s)) && '<' !in Escape(s)
  {
    EscapesByCharacter(s);
    NoTagInside(s);
    if s != [] {
      StageEnds(s);
      assert Stage(s, 4)[0] == Stage1(s[0], 4)[0];
    }
  }

  lemma UnescapedIsTight(s: string)
    requires Tight(s)
    ensures Tight(Unescape(s))
  {
    ReplaceTight(s, QUOT, '"');
    var a := Replace(s, QUOT, "\"");
    ReplaceTight(a, GT, '>');
    var b := Replace(a, GT, ">");
    ReplaceTight(b, LT, '<');
    ReplaceTight(Replace(b, LT, "<"), AMP, '&');
  }

  // ---- both, in one pass --------------------------------------------------------------

  /** A string with its first `k` kinds of entity read, from the left, in one pass. */
  function OnePass(s: string, k: nat): string
    requires k <= 4
    decreases |s|
  {
    if s == [] then []
    else if k >= 1 && "&quot;" <= s then "\"" + OnePass(s[6..], k)
    else if k >= 2 && "&gt;" <= s then ">" + OnePass(s[4..], k)
    else if k >= 3 && "&lt;" <= s then "<" + OnePass(s[4..], k)
    else if k >= 4 && "&amp;" <= s then "&" + OnePass(s[5..], k)
    else [s[0]] + OnePass(s[1..], k)
  }

  /** The `k`-th entity that is read, and what it stands for: the escaping's, last first. */
  function Name(k: nat): (r: string)
    requires k < 4
    ensures |r| >= 4 && r[0] == '&'
  {
    Entity(3 - k)
  }

  function Sign(k: nat): char
    requires k < 4
  {
    Special(3 - k)
  }

  /** No letter of `w` begins an entity or is what one stands for. */
  predicate Inert(w: string) {
    '&' !in w && '"' !in w && '<' !in w && '>' !in w
  }

  lemma NamesAreInert(k: nat)
    requires k < 4
    ensures Inert(Name(k)[1..])
  {}

  lemma OnePassSkipsOne(s: string, k: nat)
    requires k <= 4 && s != [] && s[0] != '&'
    ensures OnePass(s, k) == [s[0]] + OnePass(s[1..], k)
  {}

  lemma {:induction false} OnePassSkips(w: string, s: string, k: nat)
    requires k <= 4 && Inert(w)
    ensures OnePass(w + s, k) == w + OnePass(s, k)
    decreases |w|
  {
    hide OnePass;
    if w == [] {
      assert w + s == s;
    } else {
      assert w[0] in w && (w + s)[0] == w[0] && (w + s)[1..] == w[1..] + s;
      OnePassSkipsOne(w + s, k);
      OnePassSkips(w[1..], s, k);
      assert [w[0]] + (w[1..] + OnePass(s, k)) == w + OnePass(s, k);
    }
  }

  /** Reading entities never makes up inert text. */
  lemma {:induction false} InertWasThere(w: string, s: string, k: nat)
    requires k <= 3 && Inert(w) && w <= OnePass(s, k)
    ensures w <= s
    decreases |w|
  {
    if w != [] {
      assert w[0] == OnePass(s, k)[0] && w[0] in w;
      assert OnePass(s, k) == [s[0]] + OnePass(s[1..], k);
      assert w[1..] <= OnePass(s[1..], k);
      InertWasThere(w[1..], s[1..], k);
    }
  }

  /** Some kind of entity before the `k`-th starts here. */
  predicate Starts(s: string, k: nat)
    requires k <= 4
  {
    exists i :: 0 <= i < k && Name(i) <= s
  }

  lemma Started(s: string, k: nat, i: nat)
    requires i < k <= 4 && Name(i) <= s
    ensures OnePass(s, k) == [Sign(i)] + OnePass(s[|Name(i)|..], k)
  {
    hide OnePass;
    assert s[0] == '&' && s[1] == Name(i)[1];
    FirstStarted(s, k, i);
  }

  lemma FirstStarted(s: string, k: nat, i: nat)
    requires i < k <= 4 && Name(i) <= s && |s| > 1 && s[1] == ['q', 'g', 'l', 'a'][i]
    ensures OnePass(s, k) == [Sign(i)] + OnePass(s[|Name(i)|..], k)
  {}

  lemma NotStarted(s: string, k: nat)
    requires k <= 4 && s != [] && !Starts(s, k)
    ensures OnePass(s, k) == [s[0]] + OnePass(s[1..], k)
  {
    assert k >= 1 ==> !(Name(0) <= s);
    assert k >= 2 ==> !(Name(1) <= s);
    assert k >= 3 ==> !(Name(2) <= s);
    assert k >= 4 ==> !(Name(3) <= s);
  }

  lemma OnePassRead(s: string, k: nat, i: nat)
    requires i < k < 4 && Name(i) <= s
    ensures var rest := OnePass(s[|Name(i)|..], k);
            Replace(OnePass(s, k), Name(k), [Sign(k)]) == [Sign(i)] + Replace(rest, Name(k), [Sign(k)])
  {
    hide OnePass, Replace;
    Started(s, k, i);
    ReplaceSkips([Sign(i)], OnePass(s[|Name(i)|..], k), Name(k), [Sign(k)]);
  }

  lemma OnePassHit(s: string, k: nat)
    requires k < 4 && Name(k) <= s && !Starts(s, k)
    ensures var rest := OnePass(s[|Name(k)|..], k);
            Replace(OnePass(s, k), Name(k), [Sign(k)]) == [Sign(k)] + Replace(rest, Name(k), [Sign(k)])
  {
    hide OnePass, Replace;
    var rest := s[|Name(k)|..];
    NotStarted(s, k);
    assert s[1..] == Name(k)[1..] + rest;
    NamesAreInert(k);
    OnePassSkips(Name(k)[1..], rest, k);
    assert OnePass(s, k) == Name(k) + OnePass(rest, k);
    ReplaceHit(OnePass(rest, k), Name(k), [Sign(k)]);
  }

  lemma OnePassMiss(s: string, k: nat)
    requires k < 4 && s != [] && !Starts(s, k) && !(Name(k) <= s)
    ensures var rest := OnePass(s[1..], k);
            Replace(OnePass(s, k), Name(k), [Sign(k)]) == [s[0]] + Replace(rest, Name(k), [Sign(k)])
  {
    hide OnePass;
    var rest := OnePass(s[1..], k);
    NotStarted(s, k);
    if Name(k) <= [s[0]] + rest {
      assert Name(k)[1..] <= rest;
      NamesAreInert(k);
      InertWasThere(Name(k)[1..], s[1..], k);
    }
    assert ([s[0]] + rest)[1..] == rest;
  }

  /** The next replacement reads the next kind of entity. */
  lemma {:induction false} OnePassStage(s: string, k: nat)
    requires k < 4
    ensures Replace(OnePass(s, k), Name(k), [Sign(k)]) == OnePass(s, k + 1)
    decreases |s|
  {
    if s != [] {
      var c, n := OnePassNext(s, k);
      hide OnePass, Replace, Name, Sign;
      OnePassStage(s[n..], k);
    }
  }

  /** What both sides make of the front of a string. */
  lemma OnePassNext(s: string, k: nat) returns (c: char, n: nat)
    requires k < 4 && s != []
    ensures 0 < n <= |s|
    ensures Replace(OnePass(s, k), Name(k), [Sign(k)]) == [c] + Replace(OnePass(s[n..], k), Name(k), [Sign(k)])
    ensures OnePass(s, k + 1) == [c] + OnePass(s[n..], k + 1)
  {
    hide OnePass, Replace;
    if i :| 0 <= i < k && Name(i) <= s {
      OnePassRead(s, k, i);
      Started(s, k + 1, i);
      c, n := Sign(i), |Name(i)|;
    } else if Name(k) <= s {
      OnePassHit(s, k);
      Started(s, k + 1, k);
      c, n := Sign(k), |Name(k)|;
    } else {
      OnePassMiss(s, k);
      NotStarted(s, k + 1);
      c, n := s[0], 1;
    }
  }

  /** Unescaping reads each entity once, from the left, whatever the text: nothing it reads makes up
      another entity. */
  lemma UnescapesInOnePass(s: string)
    ensures Unescape(s) == OnePass(s, 4)
  {
    hide Replace, OnePass;
    NothingRead(s);
    OnePassStage(s, 0);
    OnePassStage(s, 1);
    OnePassStage(s, 2);
    OnePassStage(s, 3);
  }

  lemma {:induction false} NothingRead(s: string)
    ensures OnePass(s, 0) == s
  {
    if s != [] { NothingRead(s[1..]); }
  }
}
