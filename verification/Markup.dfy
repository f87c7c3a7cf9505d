/** Text made of tags and of stretches without `<`: where a search for a tag lands. */
module Markup {
  import opened Common
  import opened Search

  datatype Token = Tag(name: string) | Chars(text: string) {
    predicate Ok() {
      match this
      case Tag(name) => '<' !in name && '>' !in name
      case Chars(text) => '<' !in text
    }

    function Render(): string {
      match this
      case Tag(name) => "<" + name + ">"
      case Chars(text) => text
    }
  }

  predicate AllOk(ts: seq<Token>) {
    forall i :: 0 <= i < |ts| ==> ts[i].Ok()
  }

  function Render(ts: seq<Token>): string {
    if ts == [] then [] else ts[0].Render() + Render(ts[1..])
  }

  lemma {:induction false} RenderJoin(a: seq<Token>, b: seq<Token>)
    ensures Render(a + b) == Render(a) + Render(b)
    decreases |a|
  {
    if a == [] {
      assert a + b == b;
    } else {
      assert (a + b)[1..] == a[1..] + b;
      RenderJoin(a[1..], b);
      assert a[0].Render() + (Render(a[1..]) + Render(b)) == Render(a) + Render(b);
    }
  }

  function TagText(n: string): string {
    "<" + n + ">"
  }

  lemma Differs(s: string, d: string, j: nat, i: nat)
    requires i < |d| && (j + |d| <= |s| ==> s[j + i] != d[i])
    ensures !OccursAt(s, d, j)
  {
    if j + |d| <= |s| { assert s[j..j + |d|][i] == s[j + i]; }
  }

  /** A tag is found at the start of a token only if it is that token. */
  lemma StartsToken(t: Token, rest: string, n: string)
    requires t.Ok() && '>' !in n && t.Render() != []
    ensures OccursAt(t.Render() + rest, TagText(n), 0) <==> t == Tag(n)
  {
    var s, p := t.Render() + rest, TagText(n);
    if t == Tag(n) {
      assert s[0..|p|] == p;
    } else if t.Chars? {
      assert t.text[0] in t.text;
      Differs(s, p, 0, 0);
    } else {
      var m := t.name;
      if |m| < |n| {
        assert n[|m|] in n;
        Differs(s, p, 0, |m| + 1);
      } else if |n| < |m| {
        assert m[|n|] in m;
        Differs(s, p, 0, |n| + 1);
      } else {
        var i :| 0 <= i < |n| && m[i] != n[i];
        Differs(s, p, 0, i + 1);
      }
    }
  }

  /** No tag is found inside a token. */
  lemma InsideToken(t: Token, rest: string, n: string, j: nat)
    requires t.Ok() && 0 < j < |t.Render()|
    ensures !OccursAt(t.Render() + rest, TagText(n), j)
  {
    if t.Chars? {
      assert t.text[j] in t.text;
    } else if j <= |t.name| {
      assert t.name[j - 1] in t.name;
    }
    Differs(t.Render() + rest, TagText(n), j, 0);
  }

  lemma PastToken(head: string, rest: string, d: string, j: int)
    requires j >= |head|
    ensures OccursAt(head + rest, d, j) <==> OccursAt(rest, d, j - |head|)
  {
    if j + |d| <= |head| + |rest| {
      assert (head + rest)[j..j + |d|] == rest[j - |head|..j - |head| + |d|];
    }
  }

  ghost predicate Absent(ts: seq<Token>, n: string) {
    forall i :: 0 <= i < |ts| ==> ts[i] != Tag(n)
  }

  /** Nothing but the tag itself is found. */
  lemma {:induction false} NotFoundBefore(ts: seq<Token>, rest: string, n: string, j: int)
    requires AllOk(ts) && Absent(ts, n) && '>' !in n && 0 <= j < |Render(ts)|
    ensures !OccursAt(Render(ts) + rest, TagText(n), j)
    decreases |ts|
  {
    var head, more := ts[0].Render(), Render(ts[1..]) + rest;
    assert Render(ts) + rest == head + more;
    if j < |head| {
      if j == 0 { StartsToken(ts[0], more, n); } else { InsideToken(ts[0], more, n, j); }
    } else {
      PastToken(head, more, TagText(n), j);
      NotFoundBefore(ts[1..], rest, n, j - |head|);
    }
  }

  lemma FindIs<T>(s: seq<T>, d: seq<T>, i: nat)
    requires OccursAt(s, d, i) && forall j :: 0 <= j < i ==> !OccursAt(s, d, j)
    ensures Find(s, d) == Some(i)
  {
    hide OccursAt;
    if Find(s, d).Some? { assert !(Find(s, d).value < i) && !(i < Find(s, d).value); }
  }

  /** The search lands on the first such tag; what follows and what precedes are the other tokens. */
  lemma FindsTag(before: seq<Token>, n: string, after: seq<Token>)
    requires AllOk(before) && Absent(before, n) && '<' !in n && '>' !in n
    ensures var s := Render(before + [Tag(n)] + after); var i := |Render(before)|;
            && Find(s, TagText(n)) == Some(i) && i + |TagText(n)| <= |s|
            && s[..i] == Render(before) && s[i + |TagText(n)|..] == Render(after)
  {
    hide Render, TagText, OccursAt;
    var s, i := Render(before + [Tag(n)] + after), |Render(before)|;
    RenderTag(before, n, after);
    OccursThere(Render(before), TagText(n), Render(after));
    forall j | 0 <= j < i ensures !OccursAt(s, TagText(n), j) {
      NotFoundBefore(before, TagText(n) + Render(after), n, j);
    }
    FindIs(s, TagText(n), i);
  }

  lemma RenderTag(before: seq<Token>, n: string, after: seq<Token>)
    ensures Render(before + [Tag(n)] + after) == Render(before) + (TagText(n) + Render(after))
  {
    hide Render, TagText;
    RenderJoin(before + [Tag(n)], after);
    RenderJoin(before, [Tag(n)]);
    RenderOne(Tag(n));
    Associates(Render(before), TagText(n), Render(after));
  }

  lemma RenderOne(t: Token)
    ensures Render([t]) == t.Render() && (t.Tag? ==> t.Render() == TagText(t.name))
  {
    assert [t][1..] == [];
  }

  lemma OccursThere(a: string, d: string, b: string)
    ensures OccursAt(a + (d + b), d, |a|) && (a + (d + b))[..|a|] == a && (a + (d + b))[|a| + |d|..] == b
  {}

  lemma {:induction false} FindsNothing(ts: seq<Token>, n: string)
    requires AllOk(ts) && Absent(ts, n) && '>' !in n
    ensures Find(Render(ts), TagText(n)) == None
  {
    assert Render(ts) + [] == Render(ts);
    forall j | 0 <= j < |Render(ts)| ensures !OccursAt(Render(ts), TagText(n), j) {
      NotFoundBefore(ts, [], n, j);
    }
  }
}
