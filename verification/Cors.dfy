/** The CORS configuration's XML form: what the parser accepts, and that printing it back loses nothing. */
module Cors {
  import opened Common
  import opened CorsTypes
  import opened Search
  import opened Text
  import opened Escaping
  import opened Markup

  const MAX_RULES: nat := 100
  const MAX_LIST: nat := 100
  const MAX_AGE_CEILING: nat := 30 * 24 * 3600

  datatype CorsError = Unterminated | NoOrigin | NoMethod | InvalidMethod(name: string) | TooManyEntries |
    TooManyRules | NoRules

  // ---- parsing -------------------------------------------------------------------

  /** The unescaped inner texts of a tag, in document order, without the empty ones. */
  function Collect(rest: string, tag: string): seq<string>
    decreases |rest|
  {
    match Find(rest, TagText(tag))
    case None => []
    case Some(i) => CollectInside(rest[i + |TagText(tag)|..], tag)
  }

  /** The same, from just after an opening tag. */
  function CollectInside(inner: string, tag: string): seq<string>
    decreases |inner|
  {
    match Find(inner, TagText("/" + tag))
    case None => []
    case Some(j) => Nonempty(Unescape(Trim(inner[..j]))) + Collect(inner[j + |TagText("/" + tag)|..], tag)
  }

  function Nonempty(v: string): seq<string> {
    if v != [] then [v] else []
  }

  method CollectTags(block: string, tag: string) returns (out: seq<string>)
    ensures out == Collect(block, tag)
  {
    hide Find, Unescape, Trim;
    var opening, close := TagText(tag), TagText("/" + tag);
    out := [];
    var rest := block;
    while true
      invariant out + Collect(rest, tag) == Collect(block, tag)
      decreases |rest|
    {
      var i := Find(rest, opening);
      if i.None? { break; }
      rest := rest[i.value + |opening|..];
      var j := Find(rest, close);
      if j.None? { break; }
      var val := Unescape(Trim(rest[..j.value]));
      ghost var more := Collect(rest[j.value + |close|..], tag);
      Associates(out, Nonempty(val), more);
      if val != [] { out := out + [val]; }
      rest := rest[j.value + |close|..];
    }
  }

  function ToUpper(s: string): string {
    seq(|s|, i requires 0 <= i < |s| => if 'a' <= s[i] <= 'z' then (s[i] as int - 32) as char else s[i])
  }

  predicate ValidMethod(m: string) {
    ToUpper(Trim(m)) in ["GET", "PUT", "POST", "DELETE", "HEAD"]
  }

  function FirstBad(ms: seq<string>): Option<string> {
    if ms == [] then None else if !ValidMethod(ms[0]) then Some(ms[0]) else FirstBad(ms[1..])
  }

  method CheckMethods(ms: seq<string>) returns (bad: Option<string>)
    ensures bad == FirstBad(ms)
  {
    for i := 0 to |ms|
      invariant FirstBad(ms) == FirstBad(ms[i..])
    {
      if !ValidMethod(ms[i]) { return Some(ms[i]); }
    }
    return None;
  }

  function MaxAge(texts: seq<string>): Option<nat> {
    if texts == [] then None else
      match ParseU64(Trim(texts[0]))
      case None => None
      case Some(n) => Some(Min(n, MAX_AGE_CEILING))
  }

  function RuleOf(block: string): CorsRule {
    CorsRule(Collect(block, "AllowedOrigin"), Collect(block, "AllowedMethod"), Collect(block, "AllowedHeader"),
             Collect(block, "ExposeHeader"), MaxAge(Collect(block, "MaxAgeSeconds")))
  }

  /** Why a rule is refused, if it is. */
  function Fault(r: CorsRule): Option<CorsError> {
    if r.allowedOrigins == [] then Some(NoOrigin)
    else if r.allowedMethods == [] then Some(NoMethod)
    else if FirstBad(r.allowedMethods).Some? then Some(InvalidMethod(FirstBad(r.allowedMethods).value))
    else if |r.allowedOrigins| > MAX_LIST || |r.allowedMethods| > MAX_LIST || |r.allowedHeaders| > MAX_LIST ||
      |r.exposeHeaders| > MAX_LIST
    then Some(TooManyEntries)
    else None
  }

  /** The rest of a document, after `rules`. */
  function ParseFrom(rest: string, rules: seq<CorsRule>): Result<CorsConfig, CorsError>
    decreases |rest|
  {
    match Find(rest, TagText("CORSRule"))
    case None => if rules == [] then Err(NoRules) else Ok(CorsConfig(rules))
    case Some(i) => ParseInside(rest[i + |TagText("CORSRule")|..], rules)
  }

  /** The same, from just after the start of a rule. */
  function ParseInside(inner: string, rules: seq<CorsRule>): Result<CorsConfig, CorsError>
    decreases |inner|
  {
    match Find(inner, TagText("/CORSRule"))
    case None => Err(Unterminated)
    case Some(end) =>
      var rule := RuleOf(inner[..end]);
      if Fault(rule).Some? then Err(Fault(rule).value)
      else if |rules| + 1 > MAX_RULES then Err(TooManyRules)
      else ParseFrom(inner[end + |TagText("/CORSRule")|..], rules + [rule])
  }

  function Parse(xml: string): Result<CorsConfig, CorsError> {
    ParseFrom(xml, [])
  }

  method ParseCorsConfigXml(xml: string) returns (r: Result<CorsConfig, CorsError>)
    ensures r == Parse(xml)
  {
    hide Find, Collect, FirstBad;
    var rules: seq<CorsRule> := [];
    var rest := xml;
    while true
      invariant ParseFrom(rest, rules) == Parse(xml)
      decreases |rest|
    {
      var i := Find(rest, TagText("CORSRule"));
      if i.None? { break; }
      rest := rest[i.value + |TagText("CORSRule")|..];
      var end := Find(rest, TagText("/CORSRule"));
      if end.None? { return Err(Unterminated); }
      var block := rest[..end.value];
      rest := rest[end.value + |TagText("/CORSRule")|..];
      var rule := ReadRule(block);
      if rule.allowedOrigins == [] { return Err(NoOrigin); }
      if rule.allowedMethods == [] { return Err(NoMethod); }
      var bad := CheckMethods(rule.allowedMethods);
      if bad.Some? { return Err(InvalidMethod(bad.value)); }
      if |rule.allowedOrigins| > MAX_LIST || |rule.allowedMethods| > MAX_LIST ||
         |rule.allowedHeaders| > MAX_LIST || |rule.exposeHeaders| > MAX_LIST {
        return Err(TooManyEntries);
      }
      rules := rules + [rule];
      if |rules| > MAX_RULES { return Err(TooManyRules); }
    }
    if rules == [] { return Err(NoRules); }
    return Ok(CorsConfig(rules));
  }

  method ReadRule(block: string) returns (rule: CorsRule)
    ensures rule == RuleOf(block)
  {
    hide Collect;
    var origins := CollectTags(block, "AllowedOrigin");
    var methods := CollectTags(block, "AllowedMethod");
    var headers := CollectTags(block, "AllowedHeader");
    var exposed := CollectTags(block, "ExposeHeader");
    var ages := CollectTags(block, "MaxAgeSeconds");
    rule := CorsRule(origins, methods, headers, exposed, MaxAge(ages));
  }

  // ---- printing --------------------------------------------------------------------

  function FieldTokens(name: string, vals: seq<string>): seq<Token> {
    if vals == [] then [] else [Tag(name), Chars(Escape(vals[0])), Tag("/" + name)] + FieldTokens(name, vals[1..])
  }

  function AgeTokens(age: Option<nat>): seq<Token> {
    match age
    case None => []
    case Some(n) => [Tag("MaxAgeSeconds"), Chars(Decimal(n)), Tag("/" + "MaxAgeSeconds")]
  }

  function BlockTokens(r: CorsRule): seq<Token> {
    FieldTokens("AllowedOrigin", r.allowedOrigins) + FieldTokens("AllowedMethod", r.allowedMethods) +
    FieldTokens("AllowedHeader", r.allowedHeaders) + FieldTokens("ExposeHeader", r.exposeHeaders) +
    AgeTokens(r.maxAgeSeconds)
  }

  function RuleTokens(rules: seq<CorsRule>): seq<Token> {
    if rules == [] then [] else [Tag("CORSRule")] + BlockTokens(rules[0]) + [Tag("/CORSRule")] + RuleTokens(rules[1..])
  }

  const PROLOG := "?xml version=\"1.0\" encoding=\"UTF-8\"?"
  const ROOT := "CORSConfiguration xmlns=" + "\"http://s3.amazonaws.com" + "/doc/2006-03-01/\""

  function DocTokens(cfg: CorsConfig): seq<Token> {
    [Tag(PROLOG), Tag(ROOT)] + RuleTokens(cfg.rules) + [Tag("/CORSConfiguration")]
  }
}
