/** Printing a CORS configuration, and reading it back. */
module CorsRoundTrip {
  import opened Common
  import opened CorsTypes
  import opened Search
  import opened Text
  import opened Escaping
  import opened Markup
  import opened Cors

  // ---- the printer ---------------------------------------------------------------

  lemma {:induction false} FieldNext(name: string, vals: seq<string>, i: nat)
    requires i < |vals|
    ensures FieldTokens(name, vals[..i + 1]) == FieldTokens(name, vals[..i]) +
              [Tag(name), Chars(Escape(vals[i])), Tag("/" + name)]
    decreases |vals|
  {
    hide Escape;
    if i > 0 {
      FieldNext(name, vals[1..], i - 1);
      assert vals[..i + 1][1..] == vals[1..][..i] && vals[..i][1..] == vals[1..][..i - 1];
    } else {
      assert vals[..1][1..] == [];
    }
  }

  lemma RenderField(name: string, text: string)
    ensures Render([Tag(name), Chars(text), Tag("/" + name)]) == TagText(name) + text + TagText("/" + name)
  {
    hide Render, TagText;
    assert [Tag(name), Chars(text), Tag("/" + name)] == [Tag(name)] + ([Chars(text)] + [Tag("/" + name)]);
    RenderJoin([Tag(name)], [Chars(text)] + [Tag("/" + name)]);
    RenderJoin([Chars(text)], [Tag("/" + name)]);
    RenderOne(Tag(name));
    RenderOne(Chars(text));
    RenderOne(Tag("/" + name));
    Associates(TagText(name), text, TagText("/" + name));
  }

  method PushFields(x0: string, name: string, vals: seq<string>) returns (x: string)
    ensures x == x0 + Render(FieldTokens(name, vals))
  {
    hide Render, FieldTokens, TagText, Escape;
    x := x0;
    NoFields(name);
    for i := 0 to |vals|
      invariant x == x0 + Render(FieldTokens(name, vals[..i]))
    {
      FieldNext(name, vals, i);
      RenderJoin(FieldTokens(name, vals[..i]), [Tag(name), Chars(Escape(vals[i])), Tag("/" + name)]);
      RenderField(name, Escape(vals[i]));
      Associates(x0, Render(FieldTokens(name, vals[..i])), TagText(name) + Escape(vals[i]) + TagText("/" + name));
      x := x + (TagText(name) + Escape(vals[i]) + TagText("/" + name));
    }
    assert vals[..|vals|] == vals;
  }

  lemma NoFields(name: string)
    ensures FieldTokens(name, []) == [] && Render([]) == []
  {}

  method PushRule(x0: string, r: CorsRule) returns (x: string)
    ensures x == x0 + Render([Tag("CORSRule")] + BlockTokens(r) + [Tag("/CORSRule")])
  {
    hide Render, FieldTokens, TagText;
    x := x0 + TagText("CORSRule");
    x := PushFields(x, "AllowedOrigin", r.allowedOrigins);
    x := PushFields(x, "AllowedMethod", r.allowedMethods);
    x := PushFields(x, "AllowedHeader", r.allowedHeaders);
    x := PushFields(x, "ExposeHeader", r.exposeHeaders);
    if r.maxAgeSeconds.Some? {
      x := x + (TagText("MaxAgeSeconds") + Decimal(r.maxAgeSeconds.value) + TagText("/" + "MaxAgeSeconds"));
    }
    x := x + TagText("/CORSRule");
    RenderRule(x0, r);
  }

  lemma RenderRule(x: string, r: CorsRule)
    ensures var o := FieldTokens("AllowedOrigin", r.allowedOrigins);
            var m := FieldTokens("AllowedMethod", r.allowedMethods);
            var h := FieldTokens("AllowedHeader", r.allowedHeaders);
            var e := FieldTokens("ExposeHeader", r.exposeHeaders);
            var upTo := x + TagText("CORSRule") + Render(o) + Render(m) + Render(h) + Render(e);
            x + Render([Tag("CORSRule")] + BlockTokens(r) + [Tag("/CORSRule")]) ==
              (if r.maxAgeSeconds.Some?
               then upTo + (TagText("MaxAgeSeconds") + Decimal(r.maxAgeSeconds.value) + TagText("/" + "MaxAgeSeconds"))
               else upTo) + TagText("/CORSRule")
  {
    hide Render, FieldTokens, TagText, Decimal;
    var o, m, h, e := FieldTokens("AllowedOrigin", r.allowedOrigins), FieldTokens("AllowedMethod", r.allowedMethods),
                      FieldTokens("AllowedHeader", r.allowedHeaders), FieldTokens("ExposeHeader", r.exposeHeaders);
    var age := AgeTokens(r.maxAgeSeconds);
    RenderJoin([Tag("CORSRule")] + BlockTokens(r), [Tag("/CORSRule")]);
    RenderJoin([Tag("CORSRule")], BlockTokens(r));
    RenderJoin(o + m + h + e, age);
    RenderJoin(o + m + h, e);
    RenderJoin(o + m, h);
    RenderJoin(o, m);
    RenderOne(Tag("CORSRule"));
    RenderOne(Tag("/CORSRule"));
    RenderAge(r.maxAgeSeconds);
    Regroup(x, TagText("CORSRule"), Render(o), Render(m), Render(h), Render(e), Render(age), TagText("/CORSRule"));
  }

  lemma RenderAge(age: Option<nat>)
    ensures Render(AgeTokens(age)) ==
              if age.None? then [] else TagText("MaxAgeSeconds") + Decimal(age.value) + TagText("/" + "MaxAgeSeconds")
  {
    hide Decimal, TagText;
    if age.Some? {
      RenderField("MaxAgeSeconds", Decimal(age.value));
    }
  }

  lemma Regroup(x: string, t: string, o: string, m: string, h: string, e: string, a: string, u: string)
    ensures x + (t + (o + m + h + e + a) + u) == x + t + o + m + h + e + a + u
    ensures x + t + o + m + h + e + [] == x + t + o + m + h + e
  {
    Associates(x, t + (o + m + h + e + a), u);
    Associates(x, t, o + m + h + e + a);
    Associates(x + t, o + m + h + e, a);
    Associates(x + t, o + m + h, e);
    Associates(x + t, o + m, h);
    Associates(x + t, o, m);
  }

  method CorsConfigToXml(cfg: CorsConfig) returns (x: string)
    ensures x == Render(DocTokens(cfg))
  {
    hide Render, BlockTokens, TagText;
    x := TagText(PROLOG) + TagText(ROOT);
    RenderHead();
    for i := 0 to |cfg.rules|
      invariant x == Render([Tag(PROLOG), Tag(ROOT)] + RuleTokens(cfg.rules[..i]))
    {
      var one := [Tag("CORSRule")] + BlockTokens(cfg.rules[i]) + [Tag("/CORSRule")];
      RuleNext(cfg.rules, i);
      Associates([Tag(PROLOG), Tag(ROOT)], RuleTokens(cfg.rules[..i]), one);
      RenderJoin([Tag(PROLOG), Tag(ROOT)] + RuleTokens(cfg.rules[..i]), one);
      x := PushRule(x, cfg.rules[i]);
    }
    assert cfg.rules[..|cfg.rules|] == cfg.rules;
    RenderJoin([Tag(PROLOG), Tag(ROOT)] + RuleTokens(cfg.rules), [Tag("/CORSConfiguration")]);
    RenderOne(Tag("/CORSConfiguration"));
    x := x + TagText("/CORSConfiguration");
  }

  lemma RenderHead()
    ensures Render([Tag(PROLOG), Tag(ROOT)] + RuleTokens([])) == TagText(PROLOG) + TagText(ROOT)
  {
    hide Render, TagText;
    assert [Tag(PROLOG), Tag(ROOT)] + RuleTokens([]) == [Tag(PROLOG)] + [Tag(ROOT)];
    RenderJoin([Tag(PROLOG)], [Tag(ROOT)]);
    RenderOne(Tag(PROLOG));
    RenderOne(Tag(ROOT));
  }

  lemma {:induction false} RuleNext(rules: seq<CorsRule>, i: nat)
    requires i < |rules|
    ensures RuleTokens(rules[..i + 1]) == RuleTokens(rules[..i]) +
              ([Tag("CORSRule")] + BlockTokens(rules[i]) + [Tag("/CORSRule")])
    decreases |rules|
  {
    hide BlockTokens;
    if i > 0 {
      RuleNext(rules[1..], i - 1);
      assert rules[..i + 1][1..] == rules[1..][..i] && rules[..i][1..] == rules[1..][..i - 1];
    } else {
      assert rules[..1][1..] == [];
    }
  }

  // ---- what the parser yields ----------------------------------------------------

  predicate ValuesOk(vals: seq<string>) {
    forall i :: 0 <= i < |vals| ==> vals[i] != [] && Tight(vals[i])
  }

  /** A rule the parser can yield. */
  predicate RuleOk(r: CorsRule) {
    && Fault(r).None?
    && ValuesOk(r.allowedOrigins) && ValuesOk(r.allowedMethods) && ValuesOk(r.allowedHeaders) &&
         ValuesOk(r.exposeHeaders)
    && (r.maxAgeSeconds.Some? ==> r.maxAgeSeconds.value <= MAX_AGE_CEILING)
  }

  predicate ConfigOk(cfg: CorsConfig) {
    0 < |cfg.rules| <= MAX_RULES && forall i :: 0 <= i < |cfg.rules| ==> RuleOk(cfg.rules[i])
  }

  lemma {:induction false} CollectedOk(rest: string, tag: string)
    ensures ValuesOk(Collect(rest, tag))
    decreases |rest|
  {
    hide Find, Trim, Unescape, Tight, TagText;
    var i := Find(rest, TagText(tag));
    if i.Some? {
      TagIsLong(tag);
      var inner := rest[i.value + |TagText(tag)|..];
      var j := Find(inner, TagText("/" + tag));
      if j.Some? {
        TrimmedIsTight(inner[..j.value]);
        UnescapedIsTight(Trim(inner[..j.value]));
        CollectedOk(inner[j.value + |TagText("/" + tag)|..], tag);
      }
    }
  }

  lemma TagIsLong(tag: string)
    ensures |TagText(tag)| > 0
  {}

  lemma ParsedRuleOk(block: string)
    requires Fault(RuleOf(block)).None?
    ensures RuleOk(RuleOf(block))
  {
    hide Collect, ValuesOk;
    CollectedOk(block, "AllowedOrigin");
    CollectedOk(block, "AllowedMethod");
    CollectedOk(block, "AllowedHeader");
    CollectedOk(block, "ExposeHeader");
  }

  /** Whatever the parser accepts is such a configuration. */
  lemma {:induction false} ParsedOk(rest: string, rules: seq<CorsRule>)
    requires |rules| <= MAX_RULES && forall i :: 0 <= i < |rules| ==> RuleOk(rules[i])
    requires ParseFrom(rest, rules).Ok?
    ensures ConfigOk(ParseFrom(rest, rules).value)
    decreases |rest|
  {
    hide Find, RuleOf, RuleOk, Fault;
    var i := Find(rest, TagText("CORSRule"));
    if i.Some? {
      var inner := rest[i.value + |TagText("CORSRule")|..];
      var end := Find(inner, TagText("/CORSRule")).value;
      ParsedRuleOk(inner[..end]);
      ParsedOk(inner[end + |TagText("/CORSRule")|..], rules + [RuleOf(inner[..end])]);
    }
  }

  // ---- reading back ----------------------------------------------------------------

  predicate PlainName(n: string) {
    n != [] && '<' !in n && '>' !in n && n[0] != '/'
  }

  lemma {:induction false} FieldsAreOther(name: string, vals: seq<string>, n: string)
    requires PlainName(name) && ValuesOk(vals)
    ensures AllOk(FieldTokens(name, vals))
    ensures n != name && n != "/" + name ==> Absent(FieldTokens(name, vals), n)
    decreases |vals|
  {
    hide Escape, Tight;
    if vals != [] {
      EscapedIsTight(vals[0]);
      FieldsAreOther(name, vals[1..], n);
    }
  }

  lemma {:induction false} FirstTag(ts: seq<Token>, n: string) returns (k: nat)
    requires !Absent(ts, n)
    ensures k < |ts| && ts[k] == Tag(n) && Absent(ts[..k], n)
  {
    if ts[0] == Tag(n) {
      k := 0;
    } else {
      assert ts == [ts[0]] + ts[1..];
      k := FirstTag(ts[1..], n);
      assert ts[..k + 1] == [ts[0]] + ts[1..][..k];
      k := k + 1;
    }
  }

  lemma CollectAt(rest: string, n: string, i: nat)
    requires Find(rest, TagText(n)) == Some(i)
    ensures i + |TagText(n)| <= |rest| && Collect(rest, n) == CollectInside(rest[i + |TagText(n)|..], n)
  {
    hide CollectInside, TagText;
  }

  /** Tokens without the tag contribute nothing. */
  lemma CollectSkips(pre: seq<Token>, ts: seq<Token>, n: string)
    requires AllOk(pre) && AllOk(ts) && Absent(pre, n) && PlainName(n)
    ensures Collect(Render(pre + ts), n) == Collect(Render(ts), n)
  {
    hide Find, Render, Collect, CollectInside, TagText;
    if Absent(ts, n) {
      CollectNone(pre + ts, n);
      CollectNone(ts, n);
    } else {
      var k := FirstTag(ts, n);
      var b, a := ts[..k], ts[k + 1..];
      assert ts == b + [Tag(n)] + a && pre + ts == (pre + b) + [Tag(n)] + a;
      FindsTag(b, n, a);
      FindsTag(pre + b, n, a);
      CollectAt(Render(ts), n, |Render(b)|);
      CollectAt(Render(pre + ts), n, |Render(pre + b)|);
    }
  }

  lemma CollectNone(ts: seq<Token>, n: string)
    requires AllOk(ts) && Absent(ts, n) && PlainName(n)
    ensures Collect(Render(ts), n) == []
  {
    hide Find, Render, Unescape, Trim, TagText;
    FindsNothing(ts, n);
  }

  /** One printed field is read back as its value. */
  lemma CollectField(n: string, text: string, ts: seq<Token>)
    requires PlainName(n) && AllOk(ts) && '<' !in text && Tight(text) && Unescape(text) != []
    ensures Collect(Render([Tag(n), Chars(text), Tag("/" + n)] + ts), n) == [Unescape(text)] + Collect(Render(ts), n)
  {
    hide Find, Render, Unescape, TagText, Collect;
    var all := [Tag(n), Chars(text), Tag("/" + n)] + ts;
    var inner := [Chars(text)] + [Tag("/" + n)] + ts;
    assert all == [] + [Tag(n)] + inner;
    EmptyRender();
    FindsTag([], n, inner);
    CollectAt(Render(all), n, 0);
    FindsTag([Chars(text)], "/" + n, ts);
    RenderOne(Chars(text));
  }

  lemma EmptyRender()
    ensures Render([]) == []
  {}

  lemma {:induction false} CollectFields(n: string, vals: seq<string>, ts: seq<Token>)
    requires PlainName(n) && ValuesOk(vals) && AllOk(ts)
    ensures Collect(Render(FieldTokens(n, vals) + ts), n) == vals + Collect(Render(ts), n)
    decreases |vals|
  {
    hide Collect, Render, Escape, Unescape, Tight;
    if vals == [] {
      assert FieldTokens(n, vals) + ts == ts;
    } else {
      var one, more := [Tag(n), Chars(Escape(vals[0])), Tag("/" + n)], FieldTokens(n, vals[1..]);
      FieldsAreOther(n, vals[1..], "");
      EscapedIsTight(vals[0]);
      UnescapeEscape(vals[0]);
      Associates(one, more, ts);
      CollectField(n, Escape(vals[0]), more + ts);
      CollectFields(n, vals[1..], ts);
      Associates([vals[0]], vals[1..], Collect(Render(ts), n));
    }
  }

  lemma AgeIsOther(age: Option<nat>, n: string)
    requires age.Some? ==> age.value <= U64_MAX
    ensures AllOk(AgeTokens(age))
    ensures n != "MaxAgeSeconds" && n != "/" + "MaxAgeSeconds" ==> Absent(AgeTokens(age), n)
  {
    hide Decimal;
    if age.Some? { ParsesItsDecimal(age.value); }
  }

  lemma NoEntity(s: string)
    requires AllDigits(s)
    ensures Unescape(s) == s
  {
    assert s + [] == s;
    ReplaceSkips(s, [], QUOT, "\"");
    ReplaceSkips(s, [], GT, ">");
    ReplaceSkips(s, [], LT, "<");
    ReplaceSkips(s, [], AMP, "&");
  }

  lemma AgeReadBack(age: Option<nat>)
    requires age.Some? ==> age.value <= MAX_AGE_CEILING
    ensures MaxAge(Collect(Render(AgeTokens(age)), "MaxAgeSeconds")) == age
  {
    hide Collect, Render, Decimal, Unescape, Value;
    if age.Some? {
      var text := Decimal(age.value);
      DecimalRoundTrip(age.value);
      ParsesItsDecimal(age.value);
      NoEntity(text);
      assert AgeTokens(age) == [Tag("MaxAgeSeconds"), Chars(text), Tag("/" + "MaxAgeSeconds")] + [];
      CollectField("MaxAgeSeconds", text, []);
      CollectNone([], "MaxAgeSeconds");
    } else {
      CollectNone([], "MaxAgeSeconds");
    }
  }

  // ---- a block ---------------------------------------------------------------------

  datatype Section = Section(name: string, vals: seq<string>)

  function SectionTokens(ss: seq<Section>): seq<Token> {
    if ss == [] then [] else FieldTokens(ss[0].name, ss[0].vals) + SectionTokens(ss[1..])
  }

  ghost predicate SectionsOk(ss: seq<Section>) {
    forall i :: 0 <= i < |ss| ==> PlainName(ss[i].name) && ValuesOk(ss[i].vals)
  }

  ghost predicate Unnamed(ss: seq<Section>, n: string) {
    forall i :: 0 <= i < |ss| ==> ss[i].name != n && "/" + ss[i].name != n
  }

  ghost predicate Foreign(ts: seq<Token>, n: string) {
    AllOk(ts) && Absent(ts, n)
  }

  lemma {:induction false} SectionsAreOther(ss: seq<Section>, n: string)
    requires SectionsOk(ss)
    ensures AllOk(SectionTokens(ss)) && (Unnamed(ss, n) ==> Absent(SectionTokens(ss), n))
    decreases |ss|
  {
    hide PlainName, ValuesOk, FieldTokens;
    if ss != [] {
      FieldsAreOther(ss[0].name, ss[0].vals, n);
      SectionsAreOther(ss[1..], n);
    }
  }

  ghost predicate NamesDiffer(ss: seq<Section>) {
    forall i, j :: 0 <= i < j < |ss| ==> ss[i].name != ss[j].name
  }

  lemma NotAClosingTag(ss: seq<Section>, n: string)
    requires PlainName(n) && forall i :: 0 <= i < |ss| ==> ss[i].name != n
    ensures Unnamed(ss, n)
  {
    assert forall name: string :: ("/" + name)[0] == '/';
  }

  /** Each printed list is read back from among the others. */
  lemma {:induction false} ReadSection(ss: seq<Section>, tail: seq<Token>, k: nat)
    requires k < |ss| && SectionsOk(ss) && NamesDiffer(ss) && Foreign(tail, ss[k].name)
    ensures Collect(Render(SectionTokens(ss) + tail), ss[k].name) == ss[k].vals
    decreases |ss|
  {
    hide Collect, Render, FieldTokens, PlainName, ValuesOk;
    var n, first, more := ss[k].name, FieldTokens(ss[0].name, ss[0].vals), SectionTokens(ss[1..]);
    SectionsAreOther(ss[1..], n);
    Associates(first, more, tail);
    if k == 0 {
      NotAClosingTag(ss[1..], n);
      CollectFields(n, ss[0].vals, more + tail);
      CollectNone(more + tail, n);
    } else {
      NotAClosingTag(ss[..1], n);
      assert ss[..1][0] == ss[0];
      FieldsAreOther(ss[0].name, ss[0].vals, n);
      CollectSkips(first, more + tail, n);
      ReadSection(ss[1..], tail, k - 1);
    }
  }

  function Sections(r: CorsRule): seq<Section> {
    [Section("AllowedOrigin", r.allowedOrigins), Section("AllowedMethod", r.allowedMethods),
     Section("AllowedHeader", r.allowedHeaders), Section("ExposeHeader", r.exposeHeaders)]
  }

  lemma BlockIsSections(r: CorsRule)
    ensures BlockTokens(r) == SectionTokens(Sections(r)) + AgeTokens(r.maxAgeSeconds)
  {
    hide FieldTokens;
    var ss := Sections(r);
    assert ss[1..] == [ss[1], ss[2], ss[3]] && ss[1..][1..] == [ss[2], ss[3]] && ss[1..][1..][1..] == [ss[3]];
    var o, m, h, e := FieldTokens(ss[0].name, ss[0].vals), FieldTokens(ss[1].name, ss[1].vals),
                      FieldTokens(ss[2].name, ss[2].vals), FieldTokens(ss[3].name, ss[3].vals);
    assert SectionTokens([ss[3]]) == e;
    assert SectionTokens([ss[2], ss[3]]) == h + e;
    assert SectionTokens([ss[1], ss[2], ss[3]]) == m + (h + e);
    assert SectionTokens(ss) == o + (m + (h + e));
    assert o + (m + (h + e)) == o + m + h + e;
  }

  /** The names differ from each other and from the other tags by one character each. */
  lemma SectionNames(r: CorsRule)
    ensures var ss := Sections(r);
            && NamesDiffer(ss) && (forall i :: 0 <= i < |ss| ==> PlainName(ss[i].name))
            && (forall i :: 0 <= i < |ss| ==> ss[i].name != "MaxAgeSeconds" && ss[i].name != "/" + "MaxAgeSeconds")
            && PlainName("MaxAgeSeconds") && Unnamed(ss, "MaxAgeSeconds") && Unnamed(ss, "/CORSRule")
  {
    var ss := Sections(r);
    NameIs("AllowedOrigin", 'O');
    NameIs("AllowedMethod", 'M');
    NameIs("AllowedHeader", 'H');
    NameIs("ExposeHeader", 'e');
    NameIs("MaxAgeSeconds", 'e');
    assert "MaxAgeSeconds"[0] == 'M' && "ExposeHeader"[0] == 'E';
    forall i | 0 <= i < |ss| ensures ss[i].name != "/CORSRule" && "/" + ss[i].name != "/CORSRule" {
      assert "/CORSRule"[0] == '/' && "/CORSRule"[1] == 'C' && ("/" + ss[i].name)[1] == ss[i].name[0];
    }
    NotAClosingTag(ss, "MaxAgeSeconds");
  }

  lemma NameIs(name: string, c: char)
    requires |name| > 7 && name[7] == c && name[0] in ['A', 'E', 'M'] && '<' !in name && '>' !in name
    ensures PlainName(name) && |name| > 7 && name[7] == c && name != "/" + "MaxAgeSeconds"
  {
    assert ("/" + "MaxAgeSeconds")[0] == '/';
  }

  /** A printed rule is read back whole, and nothing in it looks like its end. */
  lemma RuleReadBack(r: CorsRule)
    requires RuleOk(r)
    ensures RuleOf(Render(BlockTokens(r))) == r && Foreign(BlockTokens(r), "/CORSRule")
  {
    hide Collect, Render, SectionTokens, AgeTokens, PlainName, ValuesOk, Fault, MaxAge, BlockTokens;
    var ss, age := Sections(r), AgeTokens(r.maxAgeSeconds);
    BlockIsSections(r);
    SectionNames(r);
    SectionsAreOther(ss, "/CORSRule");
    AgeForeign(r);
    ReadSection(ss, age, 0);
    ReadSection(ss, age, 1);
    ReadSection(ss, age, 2);
    ReadSection(ss, age, 3);
    SectionsAreOther(ss, "MaxAgeSeconds");
    CollectSkips(SectionTokens(ss), age, "MaxAgeSeconds");
    AgeReadBack(r.maxAgeSeconds);
  }

  lemma AgeForeign(r: CorsRule)
    requires r.maxAgeSeconds.Some? ==> r.maxAgeSeconds.value <= U64_MAX
    ensures forall k :: 0 <= k < |Sections(r)| ==> Foreign(AgeTokens(r.maxAgeSeconds), Sections(r)[k].name)
    ensures Foreign(AgeTokens(r.maxAgeSeconds), "/CORSRule")
  {
    hide AgeTokens, PlainName;
    SectionNames(r);
    forall k | 0 <= k < |Sections(r)| ensures Foreign(AgeTokens(r.maxAgeSeconds), Sections(r)[k].name) {
      AgeIsOther(r.maxAgeSeconds, Sections(r)[k].name);
    }
    assert "/CORSRule"[1] != ("/" + "MaxAgeSeconds")[1] && "/CORSRule"[0] != "MaxAgeSeconds"[0];
    AgeIsOther(r.maxAgeSeconds, "/CORSRule");
  }

  // ---- a document ------------------------------------------------------------------

  const END := [Tag("/CORSConfiguration")]

  lemma {:induction false} RulesReadBack(rules: seq<CorsRule>, before: seq<CorsRule>)
    requires (forall i :: 0 <= i < |rules| ==> RuleOk(rules[i])) && |before| + |rules| <= MAX_RULES
    requires before + rules != []
    ensures ParseFrom(Render(RuleTokens(rules) + END), before) == Ok(CorsConfig(before + rules))
    decreases |rules|
  {
    hide Find, Render, BlockTokens, RuleOf, TagText, Fault;
    if rules == [] {
      assert RuleTokens(rules) + END == END && before + rules == before;
      EndIsNoRule();
      FindsNothing(END, "CORSRule");
    } else {
      RuleFirst(rules, END);
      RuleReadBack(rules[0]);
      RulesReadBack(rules[1..], before + [rules[0]]);
      assert before + [rules[0]] + rules[1..] == before + rules;
    }
  }

  lemma EndIsNoRule()
    ensures AllOk(END) && Absent(END, "CORSRule")
  {
    assert "/CORSConfiguration"[0] != "CORSRule"[0];
  }

  /** The searches of one round of the parser, on printed rules. */
  lemma RuleFirst(rules: seq<CorsRule>, tail: seq<Token>)
    requires rules != [] && RuleOk(rules[0])
    ensures var s := Render(RuleTokens(rules) + tail); var n := |TagText("CORSRule")|;
            && Find(s, TagText("CORSRule")) == Some(0) && n <= |s|
            && var end := Find(s[n..], TagText("/CORSRule"));
               && end.Some? && s[n..][..end.value] == Render(BlockTokens(rules[0]))
               && s[n..][end.value + |TagText("/CORSRule")|..] == Render(RuleTokens(rules[1..]) + tail)
  {
    hide Find, Render, BlockTokens, TagText, RuleOk;
    var block, more := BlockTokens(rules[0]), RuleTokens(rules[1..]) + tail;
    var inner := block + [Tag("/CORSRule")] + more;
    RulesSplit(rules, tail);
    EmptyRender();
    FindsTag([], "CORSRule", inner);
    RuleReadBack(rules[0]);
    FindsTag(block, "/CORSRule", more);
  }

  /** What is printed is read back: every configuration the parser can yield is a fixed point. */
  lemma PrintThenParse(cfg: CorsConfig)
    requires ConfigOk(cfg)
    ensures Parse(Render(DocTokens(cfg))) == Ok(cfg)
  {
    hide Find, Render, RuleTokens, RuleOk, TagText, BlockTokens, ParseFrom;
    var head, body := [Tag(PROLOG), Tag(ROOT)], RuleTokens(cfg.rules) + END;
    assert DocTokens(cfg) == head + body;
    HeadIsNoRule();
    RulesSplit(cfg.rules, END);
    var inner := BlockTokens(cfg.rules[0]) + [Tag("/CORSRule")] + (RuleTokens(cfg.rules[1..]) + END);
    assert head + body == head + [Tag("CORSRule")] + inner;
    PastHead(head, inner);
    RulesReadBack(cfg.rules, []);
    assert [] + cfg.rules == cfg.rules;
  }

  lemma HeadIsNoRule()
    ensures Foreign([Tag(PROLOG), Tag(ROOT)], "CORSRule")
  {
    PrologIsPlain();
    RootIsPlain();
  }

  lemma PrologIsPlain()
    ensures '<' !in PROLOG && '>' !in PROLOG && PROLOG != "CORSRule"
  {
    assert PROLOG[0] != "CORSRule"[0];
  }

  predicate NoAngles(s: string) {
    '<' !in s && '>' !in s
  }

  lemma RootStart()
    ensures NoAngles("CORSConfiguration xmlns=")
  {}

  lemma RootMiddle()
    ensures NoAngles("\"http://s3.amazonaws.com")
  {}

  lemma RootEnd()
    ensures NoAngles("/doc/2006-03-01/\"")
  {}

  lemma RootIsPlain()
    ensures '<' !in ROOT && '>' !in ROOT && ROOT != "CORSRule"
  {
    RootStart();
    RootMiddle();
    RootEnd();
    assert |ROOT| > |"CORSRule"|;
  }

  lemma ParseAt(rest: string, rules: seq<CorsRule>, i: nat)
    requires Find(rest, TagText("CORSRule")) == Some(i)
    ensures i + |TagText("CORSRule")| <= |rest|
    ensures ParseFrom(rest, rules) == ParseInside(rest[i + |TagText("CORSRule")|..], rules)
  {
    hide ParseInside, TagText;
  }

  lemma PastHead(head: seq<Token>, inner: seq<Token>)
    requires Foreign(head, "CORSRule")
    ensures ParseFrom(Render(head + [Tag("CORSRule")] + inner), []) ==
              ParseFrom(Render([] + [Tag("CORSRule")] + inner), [])
  {
    hide Render, ParseFrom, ParseInside, TagText, Find;
    FindsTag([], "CORSRule", inner);
    FindsTag(head, "CORSRule", inner);
    ParseAt(Render([] + [Tag("CORSRule")] + inner), [], |Render([])|);
    ParseAt(Render(head + [Tag("CORSRule")] + inner), [], |Render(head)|);
  }

  lemma RulesSplit(rules: seq<CorsRule>, tail: seq<Token>)
    requires rules != []
    ensures var inner := BlockTokens(rules[0]) + [Tag("/CORSRule")] + (RuleTokens(rules[1..]) + tail);
            RuleTokens(rules) + tail == [] + [Tag("CORSRule")] + inner
  {
    hide BlockTokens;
  }

  /** For every text the parser accepts, printing the result and parsing again gives the same. */
  lemma RoundTrip(xml: string)
    requires Parse(xml).Ok?
    ensures Parse(Render(DocTokens(Parse(xml).value))) == Parse(xml)
  {
    hide Render, DocTokens, ParseFrom;
    ParsedOk(xml, []);
    PrintThenParse(Parse(xml).value);
  }
}
