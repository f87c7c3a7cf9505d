/** What the CORS parser accepts and why it refuses, with every limit and name written out. */
module CorsAcceptance {
  import opened Common
  import opened CorsTypes
  import opened Search
  import opened Text
  import opened Escaping
  import opened Markup
  import opened Cors
  import opened CorsRoundTrip

  /** `m` is `name`, given in capitals, in any case of letters. */
  predicate Spells(m: string, name: string) {
    |m| == |name| && forall i :: 0 <= i < |m| ==> m[i] == name[i] || m[i] as int == name[i] as int + 32
  }

  predicate IsMethod(m: string) {
    Spells(m, "GET") || Spells(m, "PUT") || Spells(m, "POST") || Spells(m, "DELETE") || Spells(m, "HEAD")
  }

  predicate Capitals(name: string) {
    forall i :: 0 <= i < |name| ==> 'A' <= name[i] <= 'Z'
  }

  lemma UpperIs(m: string, name: string)
    requires Capitals(name)
    ensures ToUpper(m) == name <==> Spells(m, name)
  {
    if ToUpper(m) == name {
      forall i | 0 <= i < |m| ensures m[i] == name[i] || m[i] as int == name[i] as int + 32 {
        assert ToUpper(m)[i] == name[i];
      }
    }
    if Spells(m, name) {
      forall i | 0 <= i < |m| ensures ToUpper(m)[i] == name[i] {
        assert 'A' <= name[i] <= 'Z' && (m[i] == name[i] || m[i] as int == name[i] as int + 32);
      }
    }
  }

  lemma TightIsTrimmed(s: string)
    requires Tight(s)
    ensures Trim(s) == s
  {}

  lemma MethodExactly(m: string)
    requires Tight(m)
    ensures ValidMethod(m) <==> IsMethod(m)
  {
    TightIsTrimmed(m);
    hide Trim, ToUpper, Spells;
    assert Capitals("GET") && Capitals("PUT") && Capitals("POST") && Capitals("DELETE") && Capitals("HEAD");
    UpperIs(m, "GET");
    UpperIs(m, "PUT");
    UpperIs(m, "POST");
    UpperIs(m, "DELETE");
    UpperIs(m, "HEAD");
  }

  /** Method `i` is the first that is none of the five. */
  predicate FirstWrong(ms: seq<string>, i: nat) {
    i < |ms| && !IsMethod(ms[i]) && forall j :: 0 <= j < i ==> IsMethod(ms[j])
  }

  predicate AllTight(ms: seq<string>) {
    forall i :: 0 <= i < |ms| ==> Tight(ms[i])
  }

  lemma {:induction false} FirstBadExactly(ms: seq<string>)
    requires AllTight(ms)
    ensures FirstBad(ms).None? <==> forall i :: 0 <= i < |ms| ==> IsMethod(ms[i])
    ensures FirstBad(ms).Some? ==> exists i: nat :: FirstWrong(ms, i) && FirstBad(ms).value == ms[i]
    decreases |ms|
  {
    if ms != [] {
      MethodExactly(ms[0]);
      hide IsMethod, ValidMethod, Tight;
      FirstBadExactly(ms[1..]);
      if !IsMethod(ms[0]) {
        assert FirstWrong(ms, 0);
      } else if FirstBad(ms[1..]).Some? {
        var i: nat :| FirstWrong(ms[1..], i) && FirstBad(ms[1..]).value == ms[1..][i];
        assert FirstWrong(ms, i + 1) && ms[i + 1] == ms[1..][i];
      } else {
        forall i | 0 <= i < |ms| ensures IsMethod(ms[i]) {
          if i > 0 { assert ms[i] == ms[1..][i - 1]; }
        }
      }
    }
  }

  predicate HasRoom(r: CorsRule) {
    |r.allowedOrigins| <= 100 && |r.allowedMethods| <= 100 && |r.allowedHeaders| <= 100 && |r.exposeHeaders| <= 100
  }

  /** A rule is taken if it has an origin and a method, every method is one of the five, and no list is longer
      than a hundred. */
  ghost predicate Taken(r: CorsRule) {
    && r.allowedOrigins != [] && r.allowedMethods != [] && HasRoom(r)
    && forall i :: 0 <= i < |r.allowedMethods| ==> IsMethod(r.allowedMethods[i])
  }

  /** `e` tells the first of these, in the order origin, method, names, lengths, that fails. */
  ghost predicate RefusedFor(r: CorsRule, e: CorsError) {
    if r.allowedOrigins == [] then e == NoOrigin
    else if r.allowedMethods == [] then e == NoMethod
    else || (exists i: nat :: FirstWrong(r.allowedMethods, i) && e == InvalidMethod(r.allowedMethods[i]))
         || (e == TooManyEntries && !HasRoom(r) &&
             forall i :: 0 <= i < |r.allowedMethods| ==> IsMethod(r.allowedMethods[i]))
  }

  lemma FaultExactly(r: CorsRule)
    requires AllTight(r.allowedMethods)
    ensures Fault(r).None? <==> Taken(r)
    ensures Fault(r).Some? ==> RefusedFor(r, Fault(r).value)
  {
    hide IsMethod, FirstBad;
    FirstBadExactly(r.allowedMethods);
  }

  // ---- acceptance ------------------------------------------------------------------------------

  /** Not empty, and neither end is white space. */
  predicate Trimmed(vals: seq<string>) {
    forall i :: 0 <= i < |vals| ==> vals[i] != [] && !IsWhite(vals[i][0]) && !IsWhite(vals[i][|vals[i]| - 1])
  }

  ghost predicate WithinLimits(cfg: CorsConfig) {
    && 1 <= |cfg.rules| <= 100
    && forall i :: 0 <= i < |cfg.rules| ==>
         var r := cfg.rules[i];
         && Taken(r)
         && Trimmed(r.allowedOrigins) && Trimmed(r.allowedMethods)
         && Trimmed(r.allowedHeaders) && Trimmed(r.exposeHeaders)
         && (r.maxAgeSeconds.Some? ==> r.maxAgeSeconds.value <= 2_592_000)
  }

  /** Every configuration within the limits is accepted, and read back from its own text; and whatever is
      accepted is within them. */
  lemma AcceptsExactly(cfg: CorsConfig)
    ensures WithinLimits(cfg) <==> Parse(Render(DocTokens(cfg))) == Ok(cfg)
  {
    hide Render, DocTokens, ParseFrom, Fault, IsMethod, Taken;
    if WithinLimits(cfg) {
      forall i | 0 <= i < |cfg.rules| ensures RuleOk(cfg.rules[i]) { LimitsAreOk(cfg.rules[i]); }
      PrintThenParse(cfg);
    }
    if Parse(Render(DocTokens(cfg))) == Ok(cfg) {
      ParsedOk(Render(DocTokens(cfg)), []);
      forall i | 0 <= i < |cfg.rules| ensures Taken(cfg.rules[i]) {
        FaultExactly(cfg.rules[i]);
      }
    }
  }

  lemma LimitsAreOk(r: CorsRule)
    requires Taken(r) && Trimmed(r.allowedOrigins) && Trimmed(r.allowedMethods)
    requires Trimmed(r.allowedHeaders) && Trimmed(r.exposeHeaders)
    requires r.maxAgeSeconds.Some? ==> r.maxAgeSeconds.value <= 2_592_000
    ensures RuleOk(r)
  {
    hide Fault, Taken, IsWhite;
    FaultExactly(r);
  }

  // ---- any text ----------------------------------------------------------------------------------

  ghost predicate First(s: string, d: string, i: nat) {
    OccursAt(s, d, i) && forall k :: 0 <= k < i ==> !OccursAt(s, d, k)
  }

  ghost predicate Nowhere(s: string, d: string) {
    forall i: nat :: !OccursAt(s, d, i)
  }

  /** The rules of a text: what lies between each `<CORSRule>` and the next `</CORSRule>`. `closed` says that
      the last one has its end. */
  ghost predicate Splits(xml: string, blocks: seq<string>, closed: bool)
    decreases |blocks|, 1
  {
    if Nowhere(xml, "<CORSRule>") then blocks == [] && closed
    else exists i: nat :: First(xml, "<CORSRule>", i) && SplitsInside(xml[i + 10..], blocks, closed)
  }

  ghost predicate SplitsInside(rest: string, blocks: seq<string>, closed: bool)
    decreases |blocks|, 0
  {
    if Nowhere(rest, "</CORSRule>") then blocks == [] && !closed
    else blocks != [] && exists j: nat ::
      First(rest, "</CORSRule>", j) && blocks[0] == rest[..j] && Splits(rest[j + 11..], blocks[1..], closed)
  }

  lemma FindIs(s: string, d: string)
    ensures match Find(s, d) case None => Nowhere(s, d) case Some(i) => First(s, d, i) && !Nowhere(s, d)
    ensures forall i: nat :: First(s, d, i) ==> Find(s, d) == Some(i)
  {
    forall i: nat | First(s, d, i) ensures Find(s, d) == Some(i) {
      assert OccursAt(s, d, i);
    }
  }

  lemma SplitsOn(xml: string, i: nat, blocks: seq<string>, closed: bool)
    requires First(xml, "<CORSRule>", i) && SplitsInside(xml[i + 10..], blocks, closed)
    ensures Splits(xml, blocks, closed)
  {
    hide SplitsInside;
    FindIs(xml, "<CORSRule>");
  }

  lemma SplitsInsideOn(rest: string, j: nat, blocks: seq<string>, closed: bool)
    requires First(rest, "</CORSRule>", j) && Splits(rest[j + 11..], blocks, closed)
    ensures SplitsInside(rest, [rest[..j]] + blocks, closed)
  {
    hide Splits;
    FindIs(rest, "</CORSRule>");
    assert ([rest[..j]] + blocks)[1..] == blocks;
  }

  /** Every text has its rules. */
  lemma {:induction false} SplitsExist(xml: string) returns (blocks: seq<string>, closed: bool)
    ensures Splits(xml, blocks, closed)
    decreases |xml|
  {
    FindIs(xml, "<CORSRule>");
    match Find(xml, "<CORSRule>")
    case None => blocks, closed := [], true;
    case Some(i) =>
      hide Splits;
      blocks, closed := SplitsInsideExist(xml[i + 10..]);
      SplitsOn(xml, i, blocks, closed);
  }

  lemma {:induction false} SplitsInsideExist(rest: string) returns (blocks: seq<string>, closed: bool)
    ensures SplitsInside(rest, blocks, closed)
    decreases |rest|
  {
    FindIs(rest, "</CORSRule>");
    match Find(rest, "</CORSRule>")
    case None => blocks, closed := [], false;
    case Some(j) =>
      hide SplitsInside;
      blocks, closed := SplitsExist(rest[j + 11..]);
      SplitsInsideOn(rest, j, blocks, closed);
      blocks := [rest[..j]] + blocks;
  }

  ghost predicate Passes(blocks: seq<string>, before: nat, n: nat) {
    n <= |blocks| && (n > 0 ==> before + n <= 100) && forall j :: 0 <= j < n ==> Taken(RuleOf(blocks[j]))
  }

  /** Rule `i` is the first that is refused or one too many. */
  ghost predicate StopsAt(blocks: seq<string>, before: nat, i: nat, e: CorsError) {
    && i < |blocks| && Passes(blocks, before, i)
    && (if Taken(RuleOf(blocks[i])) then before + i >= 100 && e == TooManyRules else RefusedFor(RuleOf(blocks[i]), e))
  }

  /** After `before` rules, a text is accepted if and only if there are between one and a hundred rules in all,
      each taken and the last one closed; otherwise the first thing wrong, in the order of the text, tells
      the error. */
  ghost predicate Answers(blocks: seq<string>, closed: bool, before: seq<CorsRule>, r: Result<CorsConfig, CorsError>) {
    match r
    case Ok(cfg) =>
      && closed && 1 <= |before| + |blocks| <= 100 && |cfg.rules| == |before| + |blocks| && before <= cfg.rules
      && forall i :: 0 <= i < |blocks| ==> Taken(RuleOf(blocks[i])) && cfg.rules[|before| + i] == RuleOf(blocks[i])
    case Err(e) =>
      || (exists i: nat :: StopsAt(blocks, |before|, i, e))
      || (AllTaken(blocks, |before|) && !closed && e == Unterminated)
      || (closed && before == [] && blocks == [] && e == NoRules)
  }

  ghost predicate AllTaken(blocks: seq<string>, before: nat) {
    before + |blocks| <= 100 && forall i :: 0 <= i < |blocks| ==> Taken(RuleOf(blocks[i]))
  }

  lemma BlockIsTight(block: string)
    ensures AllTight(RuleOf(block).allowedMethods)
  {
    hide Collect;
    CollectedOk(block, "AllowedMethod");
  }

  lemma NoMore(before: seq<CorsRule>)
    requires |before| <= 100
    ensures Answers([], false, before, Err(Unterminated))
    ensures Answers([], true, before, if before == [] then Err(NoRules) else Ok(CorsConfig(before)))
  {}

  lemma Opens(xml: string, before: seq<CorsRule>, blocks: seq<string>, closed: bool) returns (inner: Option<string>)
    requires Splits(xml, blocks, closed)
    ensures match inner
            case None => blocks == [] && closed && ParseFrom(xml, before) ==
                         (if before == [] then Err(NoRules) else Ok(CorsConfig(before)))
            case Some(rest) => SplitsInside(rest, blocks, closed) && ParseFrom(xml, before) == ParseInside(rest, before)
  {
    hide Find, SplitsInside, ParseInside;
    assert TagText("CORSRule") == "<CORSRule>";
    FindIs(xml, "<CORSRule>");
    inner := match Find(xml, "<CORSRule>") case None => None case Some(i) => Some(xml[i + 10..]);
  }

  lemma Closes(rest: string, before: seq<CorsRule>, blocks: seq<string>, closed: bool)
    returns (after: Option<string>)
    requires SplitsInside(rest, blocks, closed)
    ensures match after
            case None => blocks == [] && !closed && ParseInside(rest, before) == Err(Unterminated)
            case Some(xml) => blocks != [] && Splits(xml, blocks[1..], closed) && ParseInside(rest, before) ==
                              Step(before, RuleOf(blocks[0]), ParseFrom(xml, before + [RuleOf(blocks[0])]))
  {
    hide Find, Splits, ParseFrom, RuleOf, Fault;
    assert TagText("/CORSRule") == "</CORSRule>";
    FindIs(rest, "</CORSRule>");
    after := match Find(rest, "</CORSRule>") case None => None case Some(j) => Some(rest[j + 11..]);
  }

  /** One more rule, and what comes of the rest if it is taken. */
  ghost function Step(before: seq<CorsRule>, rule: CorsRule,
                      r: Result<CorsConfig, CorsError>): Result<CorsConfig, CorsError> {
    if Fault(rule).Some? then Err(Fault(rule).value) else if |before| >= 100 then Err(TooManyRules) else r
  }

  lemma StopsHere(blocks: seq<string>, closed: bool, before: seq<CorsRule>, e: CorsError)
    requires StopsAt(blocks, |before|, 0, e)
    ensures Answers(blocks, closed, before, Err(e))
  {}

  lemma {:induction false} ParseAnswers(xml: string, before: seq<CorsRule>, blocks: seq<string>, closed: bool)
    requires Splits(xml, blocks, closed) && |before| <= 100
    ensures Answers(blocks, closed, before, ParseFrom(xml, before))
    decreases |blocks|, 1
  {
    NoMore(before);
    hide Answers, Splits, SplitsInside, ParseFrom, ParseInside;
    var inner := Opens(xml, before, blocks, closed);
    if inner.Some? { InsideAnswers(inner.value, before, blocks, closed); }
  }

  lemma {:induction false} InsideAnswers(rest: string, before: seq<CorsRule>, blocks: seq<string>, closed: bool)
    requires SplitsInside(rest, blocks, closed) && |before| <= 100
    ensures Answers(blocks, closed, before, ParseInside(rest, before))
    decreases |blocks|, 0
  {
    NoMore(before);
    hide Answers, Splits, SplitsInside, ParseFrom, ParseInside, RuleOf, Fault, Taken, RefusedFor;
    var after := Closes(rest, before, blocks, closed);
    if after.Some? {
      var rule := RuleOf(blocks[0]);
      BlockIsTight(blocks[0]);
      FaultExactly(rule);
      if !Taken(rule) || |before| >= 100 {
        StopsHere(blocks, closed, before, ParseInside(rest, before).error);
      } else {
        ParseAnswers(after.value, before + [rule], blocks[1..], closed);
        AnswersMore(blocks, closed, before, ParseFrom(after.value, before + [rule]));
      }
    }
  }

  lemma PassesMore(blocks: seq<string>, before: nat, n: nat)
    requires blocks != [] && Taken(RuleOf(blocks[0])) && before < 100 && Passes(blocks[1..], before + 1, n)
    ensures Passes(blocks, before, n + 1)
  {
    hide RuleOf, Taken;
    forall j | 0 <= j < n + 1 ensures Taken(RuleOf(blocks[j])) {
      if j > 0 { assert blocks[j] == blocks[1..][j - 1]; }
    }
  }

  lemma StopsLater(blocks: seq<string>, before: nat, i: nat, e: CorsError)
    requires blocks != [] && Taken(RuleOf(blocks[0])) && before < 100 && StopsAt(blocks[1..], before + 1, i, e)
    ensures StopsAt(blocks, before, i + 1, e)
  {
    hide RuleOf, Taken, RefusedFor, Passes;
    PassesMore(blocks, before, i);
    assert blocks[1..][i] == blocks[i + 1];
  }

  lemma AnswersMore(blocks: seq<string>, closed: bool, before: seq<CorsRule>, r: Result<CorsConfig, CorsError>)
    requires blocks != [] && Taken(RuleOf(blocks[0])) && |before| < 100
    requires Answers(blocks[1..], closed, before + [RuleOf(blocks[0])], r)
    ensures Answers(blocks, closed, before, r)
  {
    hide RuleOf, Taken, RefusedFor;
    match r
    case Ok(cfg) =>
      forall i | 0 <= i < |blocks| ensures Taken(RuleOf(blocks[i])) && cfg.rules[|before| + i] == RuleOf(blocks[i]) {
        if i > 0 { assert blocks[i] == blocks[1..][i - 1]; }
      }
    case Err(e) =>
      var n: nat := |before| + 1;
      if i: nat :| StopsAt(blocks[1..], n, i, e) {
        StopsLater(blocks, |before|, i, e);
      } else {
        forall j | 0 <= j < |blocks| ensures Taken(RuleOf(blocks[j])) {
          if j > 0 { assert blocks[j] == blocks[1..][j - 1]; }
        }
      }
  }

  /** For every text. */
  lemma ParseExactly(xml: string) returns (blocks: seq<string>, closed: bool)
    ensures Splits(xml, blocks, closed) && Answers(blocks, closed, [], Parse(xml))
  {
    blocks, closed := SplitsExist(xml);
    hide Splits, Answers, ParseFrom;
    ParseAnswers(xml, [], blocks, closed);
  }

  // ---- one rule --------------------------------------------------------------------------------

  /** What lies between each `opening` and the next `closing`, in order. */
  ghost predicate Between(xml: string, opening: string, closing: string, texts: seq<string>)
    decreases |texts|, 1
  {
    if Nowhere(xml, opening) then texts == []
    else exists i: nat :: First(xml, opening, i) && BetweenInside(xml[i + |opening|..], opening, closing, texts)
  }

  ghost predicate BetweenInside(rest: string, opening: string, closing: string, texts: seq<string>)
    decreases |texts|, 0
  {
    if Nowhere(rest, closing) then texts == []
    else texts != [] && exists j: nat ::
      && First(rest, closing, j) && texts[0] == rest[..j]
      && Between(rest[j + |closing|..], opening, closing, texts[1..])
  }

  /** Each text trimmed and its entities read; the empty ones left out. */
  function Values(texts: seq<string>): seq<string> {
    if texts == [] then [] else
      var v := OnePass(Trim(texts[0]), 4);
      (if v == [] then [] else [v]) + Values(texts[1..])
  }

  lemma BetweenOn(xml: string, opening: string, closing: string, i: nat, texts: seq<string>)
    requires First(xml, opening, i) && BetweenInside(xml[i + |opening|..], opening, closing, texts)
    ensures Between(xml, opening, closing, texts)
  {
    hide BetweenInside;
    FindIs(xml, opening);
  }

  lemma BetweenInsideOn(rest: string, opening: string, closing: string, j: nat, more: seq<string>)
    requires First(rest, closing, j) && Between(rest[j + |closing|..], opening, closing, more)
    ensures BetweenInside(rest, opening, closing, [rest[..j]] + more)
    ensures Values([rest[..j]] + more) == Nonempty(Unescape(Trim(rest[..j]))) + Values(more)
  {
    hide Between, Trim, OnePass, Unescape;
    FindIs(rest, closing);
    assert ([rest[..j]] + more)[1..] == more;
    UnescapesInOnePass(Trim(rest[..j]));
  }

  lemma CollectOpens(xml: string, tag: string, opening: string) returns (i: Option<nat>)
    requires TagText(tag) == opening
    ensures match i
            case None => Nowhere(xml, opening) && Collect(xml, tag) == []
            case Some(at) => First(xml, opening, at) && at + |opening| <= |xml| && |xml[at + |opening|..]| < |xml| &&
                             Collect(xml, tag) == CollectInside(xml[at + |opening|..], tag)
  {
    hide Find, CollectInside;
    FindIs(xml, opening);
    i := Find(xml, opening);
  }

  lemma CollectCloses(rest: string, tag: string, closing: string) returns (j: Option<nat>)
    requires TagText("/" + tag) == closing
    ensures match j
            case None => Nowhere(rest, closing) && CollectInside(rest, tag) == []
            case Some(at) => First(rest, closing, at) && at + |closing| <= |rest| &&
                             |rest[at + |closing|..]| < |rest| && CollectInside(rest, tag) ==
                             Nonempty(Unescape(Trim(rest[..at]))) + Collect(rest[at + |closing|..], tag)
  {
    hide Find, Collect, Unescape, Trim;
    FindIs(rest, closing);
    j := Find(rest, closing);
  }

  lemma NoTexts()
    ensures Values([]) == []
  {}

  lemma {:induction false} CollectExactly(xml: string, tag: string, opening: string, closing: string)
    returns (texts: seq<string>)
    requires TagText(tag) == opening && TagText("/" + tag) == closing
    ensures Between(xml, opening, closing, texts) && Collect(xml, tag) == Values(texts)
    decreases |xml|
  {
    NoTexts();
    hide Values, TagText, Collect, CollectInside, Nowhere, First;
    var i := CollectOpens(xml, tag, opening);
    if i.None? {
      texts := [];
    } else {
      hide Between;
      texts := InsideExactly(xml[i.value + |opening|..], tag, opening, closing);
      BetweenOn(xml, opening, closing, i.value, texts);
    }
  }

  lemma {:induction false} InsideExactly(rest: string, tag: string, opening: string, closing: string)
    returns (texts: seq<string>)
    requires TagText(tag) == opening && TagText("/" + tag) == closing
    ensures BetweenInside(rest, opening, closing, texts) && CollectInside(rest, tag) == Values(texts)
    decreases |rest|
  {
    NoTexts();
    hide Values, TagText, Collect, CollectInside, Nowhere, First, Trim, Unescape;
    var j := CollectCloses(rest, tag, closing);
    if j.None? {
      texts := [];
    } else {
      hide BetweenInside, Between;
      var more := CollectExactly(rest[j.value + |closing|..], tag, opening, closing);
      BetweenInsideOn(rest, opening, closing, j.value, more);
      texts := [rest[..j.value]] + more;
    }
  }

  lemma OriginsExactly(block: string) returns (texts: seq<string>)
    ensures Between(block, "<AllowedOrigin>", "</AllowedOrigin>", texts)
    ensures Collect(block, "AllowedOrigin") == Values(texts)
  {
    assert TagText("AllowedOrigin") == "<AllowedOrigin>" && TagText("/" + "AllowedOrigin") == "</AllowedOrigin>";
    hide Collect, Between, Values, TagText;
    texts := CollectExactly(block, "AllowedOrigin", "<AllowedOrigin>", "</AllowedOrigin>");
  }

  lemma MethodsExactly(block: string) returns (texts: seq<string>)
    ensures Between(block, "<AllowedMethod>", "</AllowedMethod>", texts)
    ensures Collect(block, "AllowedMethod") == Values(texts)
  {
    assert TagText("AllowedMethod") == "<AllowedMethod>" && TagText("/" + "AllowedMethod") == "</AllowedMethod>";
    hide Collect, Between, Values, TagText;
    texts := CollectExactly(block, "AllowedMethod", "<AllowedMethod>", "</AllowedMethod>");
  }

  lemma HeadersExactly(block: string) returns (texts: seq<string>)
    ensures Between(block, "<AllowedHeader>", "</AllowedHeader>", texts)
    ensures Collect(block, "AllowedHeader") == Values(texts)
  {
    assert TagText("AllowedHeader") == "<AllowedHeader>" && TagText("/" + "AllowedHeader") == "</AllowedHeader>";
    hide Collect, Between, Values, TagText;
    texts := CollectExactly(block, "AllowedHeader", "<AllowedHeader>", "</AllowedHeader>");
  }

  lemma ExposedExactly(block: string) returns (texts: seq<string>)
    ensures Between(block, "<ExposeHeader>", "</ExposeHeader>", texts)
    ensures Collect(block, "ExposeHeader") == Values(texts)
  {
    assert TagText("ExposeHeader") == "<ExposeHeader>" && TagText("/" + "ExposeHeader") == "</ExposeHeader>";
    hide Collect, Between, Values, TagText;
    texts := CollectExactly(block, "ExposeHeader", "<ExposeHeader>", "</ExposeHeader>");
  }

  lemma AgesExactly(block: string) returns (texts: seq<string>)
    ensures Between(block, "<MaxAgeSeconds>", "</MaxAgeSeconds>", texts)
    ensures Collect(block, "MaxAgeSeconds") == Values(texts)
  {
    assert TagText("MaxAgeSeconds") == "<MaxAgeSeconds>" && TagText("/" + "MaxAgeSeconds") == "</MaxAgeSeconds>";
    hide Collect, Between, Values, TagText;
    texts := CollectExactly(block, "MaxAgeSeconds", "<MaxAgeSeconds>", "</MaxAgeSeconds>");
  }

  /** Which of a rule's lists holds what. */
  lemma RuleExactly(block: string)
    returns (o: seq<string>, m: seq<string>, h: seq<string>, e: seq<string>, a: seq<string>)
    ensures Between(block, "<AllowedOrigin>", "</AllowedOrigin>", o) && RuleOf(block).allowedOrigins == Values(o)
    ensures Between(block, "<AllowedMethod>", "</AllowedMethod>", m) && RuleOf(block).allowedMethods == Values(m)
    ensures Between(block, "<AllowedHeader>", "</AllowedHeader>", h) && RuleOf(block).allowedHeaders == Values(h)
    ensures Between(block, "<ExposeHeader>", "</ExposeHeader>", e) && RuleOf(block).exposeHeaders == Values(e)
    ensures Between(block, "<MaxAgeSeconds>", "</MaxAgeSeconds>", a) && RuleOf(block).maxAgeSeconds == MaxAge(Values(a))
  {
    hide Collect, Between, Values, MaxAge;
    o := OriginsExactly(block);
    m := MethodsExactly(block);
    h := HeadersExactly(block);
    e := ExposedExactly(block);
    a := AgesExactly(block);
  }

  /** An age is the first one's number, capped at thirty days. */
  lemma AgeExactly(n: nat, more: seq<string>)
    requires n <= U64_MAX
    ensures MaxAge([Decimal(n)] + more) == Some(if n > 2_592_000 then 2_592_000 else n) && MaxAge([]) == None
  {
    ParsesItsDecimal(n);
    TightIsTrimmed(Decimal(n));
    hide Trim, Decimal, ParseU64;
  }
}
