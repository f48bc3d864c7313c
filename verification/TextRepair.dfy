/**
 The text repair that runs before decoding: devices send arrays with missing commas, empty objects,
 a comma before the closing bracket, and trailing commas and dots.

 RepairIsCanonical shows that every such rendering of a list of brace-free values is rewritten to one
 canonical array.
 */
module TextRepair {
  import opened Options
  import opened TextExtraction

  // ---------- the four rewrites ----------

  function TrimRight(s: string, c: char): string {
    if s != [] && s[|s| - 1] == c then TrimRight(s[..|s| - 1], c) else s
  }

  /** strings.ReplaceAll for a non-empty old: left to right, without overlaps. */
  function ReplaceAll(s: string, old_: string, new_: string): string
    requires old_ != []
  {
    if s == [] then []
    else if old_ <= s then new_ + ReplaceAll(s[|old_|..], old_, new_)
    else [s[0]] + ReplaceAll(s[1..], old_, new_)
  }

  /** The length of a match of a brace, a comma, white space and a bracket. */
  function TrailingComma(s: string): (r: Option<nat>)
    ensures r.Some? ==> 3 <= r.value <= |s|
  {
    if !(|s| >= 2 && s[0] == '}' && s[1] == ',') then None else
      var n := 2 + Spaces(s[2..]);
      if n < |s| && s[n] == ']' then Some(n + 1) else None
  }

  function DropTrailingCommas(s: string): string {
    if s == [] then []
    else match TrailingComma(s)
         case Some(n) => "}]" + DropTrailingCommas(s[n..])
         case None => [s[0]] + DropTrailingCommas(s[1..])
  }

  function PreprocessJSON(jsonData: string): string {
    TrimRight(DropTrailingCommas(ReplaceAll(ReplaceAll(TrimRight(jsonData, '.'), "}{", "},{"), ",{}", "")), ',')
  }

  // ---------- renderings ----------

  predicate BraceFree(us: seq<Unit>) { us != [] ==> us[0].c != '{' && us[0].c != '}' && BraceFree(us[1..]) }

  /** The value and closing of an object, without its opening brace. */
  function Inner(us: seq<Unit>): string { "\"data\":\"" + (Render(us) + "\"") }

  function ObjectString(us: seq<Unit>): string { "{" + (Inner(us) + "}") }

  /** An element behind the first: with or without its comma, an object or an empty one. */
  datatype Element = Element(comma: bool, units: Option<seq<Unit>>)

  function ElementString(e: Element): string {
    if e.units.None? then "{}" else ObjectString(e.units.value)
  }

  predicate GoodElements(es: seq<Element>) {
    es != [] ==> (es[0].units.Some? ==> AllPlain(es[0].units.value) && BraceFree(es[0].units.value)) && GoodElements(es[1..])
  }

  /** The text behind the first object, up to the tail t. */
  function Sloppy(es: seq<Element>, t: string): string {
    if es == [] then t
    else (if es[0].comma then "," else "") + (ElementString(es[0]) + Sloppy(es[1..], t))
  }

  function Separated(es: seq<Element>, t: string): string {
    if es == [] then t else "," + (ElementString(es[0]) + Separated(es[1..], t))
  }

  function Values(es: seq<Element>): seq<seq<Unit>> {
    if es == [] then [] else (if es[0].units.Some? then [es[0].units.value] else []) + Values(es[1..])
  }

  function Canonical(rest: seq<seq<Unit>>, t: string): string {
    if rest == [] then t else "," + (ObjectString(rest[0]) + Canonical(rest[1..], t))
  }

  predicate GoodValues(vs: seq<seq<Unit>>) {
    vs != [] ==> AllPlain(vs[0]) && BraceFree(vs[0]) && GoodValues(vs[1..])
  }

  /** What may stand before the closing bracket: nothing, or a comma and white space. */
  predicate IsTail(tail: string) { tail == "" || (tail[0] == ',' && AllSpace(tail[1..])) }

  function Repeated(c: char, n: nat): string { if n == 0 then "" else Repeated(c, n - 1) + [c] }

  // ---------- trimming ----------

  lemma {:induction false} TrimAll(s: string, c: char, n: nat)
    requires s != [] && s[|s| - 1] != c
    ensures TrimRight(s + Repeated(c, n), c) == s
  {
    if n == 0 {
      assert s + "" == s;
    } else {
      var x := s + Repeated(c, n);
      assert x[..|x| - 1] == s + Repeated(c, n - 1) && x[|x| - 1] == c;
      TrimAll(s, c, n - 1);
    }
  }

  // ---------- replacing ----------

  predicate Lacks(s: string, c: char) { s != [] ==> s[0] != c && Lacks(s[1..], c) }

  lemma LacksConcat(a: string, b: string, c: char)
    ensures Lacks(a + b, c) <==> Lacks(a, c) && Lacks(b, c)
  {
    if a == [] {
      assert a + b == b;
    } else {
      assert (a + b)[1..] == a[1..] + b;
      LacksConcat(a[1..], b, c);
    }
  }

  lemma InnerLacks(us: seq<Unit>, c: char)
    requires BraceFree(us) && (c == '{' || c == '}')
    ensures Lacks(Inner(us), c)
  {
    RenderLacks(us, c);
    LacksConcat(Render(us), "\"", c);
    LacksConcat("\"data\":\"", Render(us) + "\"", c);
    NameLacks(c);
  }

  lemma NameLacks(c: char)
    requires c == '{' || c == '}'
    ensures Lacks("\"data\":\"", c) && Lacks("\"", c)
  {
    LacksConcat("\"dat", "a\":\"", c);
    assert "\"dat" + "a\":\"" == "\"data\":\"";
    LacksConcat("\"d", "at", c);
    assert "\"d" + "at" == "\"dat";
    LacksConcat("a\"", ":\"", c);
    assert "a\"" + ":\"" == "a\":\"";
    assert "\""[1..] == [] && "\"d"[1..] == "d" && "d"[1..] == [] && "at"[1..] == "t" && "t"[1..] == [];
    assert "a\""[1..] == "\"" && ":\""[1..] == "\"";
  }

  lemma RenderLacks(us: seq<Unit>, c: char)
    requires BraceFree(us) && (c == '{' || c == '}')
    ensures Lacks(Render(us), c)
  {
    if us != [] {
      RenderLacks(us[1..], c);
      var u := RenderUnit(us[0]);
      assert u[1..] == [] || (u[1..] == [us[0].c] && u[1..][1..] == []);
      LacksConcat(u, Render(us[1..]), c);
    }
  }

  /** One character that does not begin an occurrence is copied. */
  lemma ReplaceCopies(c: char, b: string, old_: string, new_: string)
    requires old_ != [] && !(old_ <= [c] + b)
    ensures ReplaceAll([c] + b, old_, new_) == [c] + ReplaceAll(b, old_, new_)
  {
    assert ([c] + b)[1..] == b;
  }

  /** Text without the first character of the pattern is copied. */
  lemma ReplaceSkips(a: string, b: string, old_: string, new_: string)
    requires old_ != [] && Lacks(a, old_[0])
    ensures ReplaceAll(a + b, old_, new_) == a + ReplaceAll(b, old_, new_)
  {
    hide ReplaceAll;
    if a == [] {
      assert a + b == b;
      assert [] + ReplaceAll(b, old_, new_) == ReplaceAll(b, old_, new_);
    } else {
      ReplaceSkips(a[1..], b, old_, new_);
      ReplaceCopies(a[0], a[1..] + b, old_, new_);
      assert a + b == [a[0]] + (a[1..] + b);
      assert [a[0]] + (a[1..] + ReplaceAll(b, old_, new_)) == a + ReplaceAll(b, old_, new_);
    }
  }

  /** The closing bracket and what stands before it survive the rewrites of braces. */
  predicate PlainTail(t: string) { t != [] && (t[0] == ',' || t[0] == ']') && Lacks(t, '{') && Lacks(t, '}') }

  const GLUED: string := "}{"
  const APART: string := "},{"
  const EMPTY: string := ",{}"

  lemma CopyAll(t: string, old_: string, new_: string)
    requires old_ != [] && Lacks(t, old_[0])
    ensures ReplaceAll(t, old_, new_) == t
  {
    if t != [] { CopyAll(t[1..], old_, new_); }
  }

  // ---------- step one: commas between objects ----------

  function Body(units: Option<seq<Unit>>): string {
    if units.None? then "" else Inner(units.value)
  }

  lemma ElementParts(e: Element, t: string)
    ensures ElementString(e) + t == "{" + (Body(e.units) + ("}" + t))
  {
  }

  lemma BodyLacks(units: Option<seq<Unit>>)
    requires units.Some? ==> BraceFree(units.value)
    ensures Lacks(Body(units), '{') && Lacks(Body(units), '}')
  {
    if units.Some? {
      InnerLacks(units.value, '{');
      InnerLacks(units.value, '}');
    }
  }

  /** A closing brace gets a comma exactly when an opening brace follows. */
  function CommaBefore(t: string): string { if t != [] && t[0] == '{' then "," else "" }

  lemma GluedApart(t: string)
    ensures ReplaceAll("}" + (['{'] + t), GLUED, APART) == "}" + ("," + (['{'] + ReplaceAll(t, GLUED, APART)))
  {
    var s, r := "}" + (['{'] + t), ReplaceAll(t, GLUED, APART);
    assert s[..2] == GLUED && s[2..] == t;
    assert APART + r == "}" + ("," + (['{'] + r));
  }

  lemma CommasBrace(t: string)
    requires t != []
    ensures ReplaceAll("}" + t, GLUED, APART) == "}" + (CommaBefore(t) + ReplaceAll(t, GLUED, APART))
  {
    var s := "}" + t;
    if t[0] == '{' {
      assert t == ['{'] + t[1..];
      ReplaceCopies('{', t[1..], GLUED, APART);
      GluedApart(t[1..]);
      hide ReplaceAll;
    } else {
      assert s[1] == t[0] != GLUED[1];
      ReplaceCopies('}', t, GLUED, APART);
      assert "" + ReplaceAll(t, GLUED, APART) == ReplaceAll(t, GLUED, APART);
    }
  }

  /** Every rewrite that leaves the inside of an element alone works on its closing brace and what follows. */
  lemma ElementSkips(e: Element, t: string, old_: string, new_: string, r: string)
    requires e.units.Some? ==> BraceFree(e.units.value)
    requires old_ != [] && old_[0] == '}' && ReplaceAll("}" + t, old_, new_) == "}" + r
    ensures ReplaceAll(ElementString(e) + t, old_, new_) == ElementString(e) + r
  {
    var b := OpenBody(e);
    OpenBodyIs(e, t);
    OpenBodyIs(e, r);
    hide *;
    ReplaceSkips(b, "}" + t, old_, new_);
  }

  /** An element up to its closing brace. */
  function OpenBody(e: Element): string { "{" + Body(e.units) }

  lemma OpenBodyIs(e: Element, t: string)
    requires e.units.Some? ==> BraceFree(e.units.value)
    ensures ElementString(e) + t == OpenBody(e) + ("}" + t) && Lacks(OpenBody(e), '}')
  {
    ElementParts(e, t);
    BodyLacks(e.units);
    hide Body, BraceFree, ElementString;
    var b := OpenBody(e);
    assert b[1..] == Body(e.units);
    assert "{" + (Body(e.units) + ("}" + t)) == b + ("}" + t);
  }

  lemma CommasElement(e: Element, t: string)
    requires e.units.Some? ==> BraceFree(e.units.value)
    requires t != []
    ensures ReplaceAll(ElementString(e) + t, GLUED, APART) ==
              ElementString(e) + (CommaBefore(t) + ReplaceAll(t, GLUED, APART))
  {
    hide ReplaceAll, ElementString, BraceFree;
    CommasBrace(t);
    ElementSkips(e, t, GLUED, APART, CommaBefore(t) + ReplaceAll(t, GLUED, APART));
  }

  lemma {:induction false} CommasInserted(e: Element, es: seq<Element>, t: string)
    requires GoodElements([e] + es) && PlainTail(t)
    ensures ReplaceAll(ElementString(e) + Sloppy(es, t), GLUED, APART) == ElementString(e) + Separated(es, t)
    decreases |es|
  {
    assert ([e] + es)[1..] == es;
    hide ReplaceAll, ElementString, BraceFree, AllPlain;
    if es == [] {
      CommasElement(e, t);
      CopyAll(t, GLUED, APART);
      assert "" + t == t;
    } else {
      var next, rest := es[0], es[1..];
      assert es == [next] + rest;
      CommasInserted(next, rest, t);
      var x := ElementString(next) + Sloppy(rest, t);
      ElementParts(next, Sloppy(rest, t));
      if next.comma {
        CommasElement(e, "," + x);
        ReplaceCopies(',', x, GLUED, APART);
        assert "" + ReplaceAll("," + x, GLUED, APART) == ReplaceAll("," + x, GLUED, APART);
      } else {
        assert "" + x == x;
        CommasElement(e, x);
      }
    }
  }

  // ---------- step two: no empty objects ----------

  lemma NotEmptyObject(us: seq<Unit>, t: string)
    ensures !(EMPTY <= "," + (ObjectString(us) + t))
  {
    var s := "," + (ObjectString(us) + t);
    assert ObjectString(us)[1] == '"';
    assert s[2] == '"' != EMPTY[2];
  }

  lemma {:induction false} EmptyObjectsDropped(es: seq<Element>, t: string)
    requires GoodElements(es) && PlainTail(t)
    ensures ReplaceAll(Separated(es, t), EMPTY, "") == Canonical(Values(es), t)
    decreases |es|
  {
    if es == [] {
      TailStays(t);
    } else {
      var e, rest := es[0], es[1..];
      var x := Separated(rest, t);
      EmptyObjectsDropped(rest, t);
      assert Separated(es, t) == "," + (ElementString(e) + x);
      if e.units.None? {
        assert ("," + ("{}" + x))[..3] == EMPTY && ("," + ("{}" + x))[3..] == x;
        assert "" + Canonical(Values(rest), t) == Canonical(Values(rest), t);
        assert [] + Values(rest) == Values(rest);
      } else {
        hide ReplaceAll;
        NotEmptyObject(e.units.value, x);
        ReplaceCopies(',', ObjectString(e.units.value) + x, EMPTY, "");
        SeparatedStart(rest, t);
        ObjectStays(e.units.value, x);
        assert ([e.units.value] + Values(rest))[1..] == Values(rest);
      }
    }
  }

  lemma SeparatedStart(es: seq<Element>, t: string)
    requires PlainTail(t)
    ensures Separated(es, t) != [] && Separated(es, t)[0] != '{'
  {
  }

  lemma TailStays(t: string)
    requires PlainTail(t)
    ensures ReplaceAll(t, EMPTY, "") == t
  {
    if t != [] {
      assert t == [t[0]] + t[1..];
      LacksAll(t);
    }
  }

  lemma LacksAll(t: string)
    requires Lacks(t, '{')
    ensures ReplaceAll(t, EMPTY, "") == t
  {
    if t != [] {
      if |t| > 1 { assert t[1] == t[1..][0] != EMPTY[1]; }
      LacksAll(t[1..]);
    }
  }

  lemma CopyWithoutBraces(a: string, t: string)
    requires Lacks(a, '{') && a != [] && a[|a| - 1] != ','
    ensures ReplaceAll(a + t, EMPTY, "") == a + ReplaceAll(t, EMPTY, "")
  {
    var s := a + t;
    assert s == [a[0]] + (a[1..] + t);
    if |a| == 1 {
      ReplaceCopies(a[0], t, EMPTY, "");
      assert a[1..] + t == t && a == [a[0]];
    } else {
      assert s[1] == a[1] == a[1..][0] != EMPTY[1];
      ReplaceCopies(a[0], a[1..] + t, EMPTY, "");
      CopyWithoutBraces(a[1..], t);
      assert [a[0]] + (a[1..] + ReplaceAll(t, EMPTY, "")) == a + ReplaceAll(t, EMPTY, "");
    }
  }

  lemma ObjectStays(us: seq<Unit>, t: string)
    requires BraceFree(us)
    ensures ReplaceAll(ObjectString(us) + t, EMPTY, "") == ObjectString(us) + ReplaceAll(t, EMPTY, "")
  {
    var a := Inner(us) + "}";
    InnerLacks(us, '{');
    LacksConcat(Inner(us), "}", '{');
    assert Lacks("}", '{') by { assert "}"[1..] == []; }
    assert EMPTY[0] == ',' && a[|a| - 1] == '}';
    hide Inner, ReplaceAll, BraceFree, Lacks;
    assert ObjectString(us) + t == ['{'] + (a + t);
    ReplaceCopies('{', a + t, EMPTY, "");
    CopyWithoutBraces(a, t);
    assert ObjectString(us) + ReplaceAll(t, EMPTY, "") == ['{'] + (a + ReplaceAll(t, EMPTY, ""));
  }

  // ---------- step three: no comma before the bracket ----------

  lemma DropCopies(c: char, b: string)
    requires TrailingComma([c] + b) == None
    ensures DropTrailingCommas([c] + b) == [c] + DropTrailingCommas(b)
  {
    assert ([c] + b)[1..] == b;
  }

  lemma DropSkips(a: string, b: string)
    requires Lacks(a, '}')
    ensures DropTrailingCommas(a + b) == a + DropTrailingCommas(b)
  {
    hide DropTrailingCommas;
    if a == [] {
      assert a + b == b;
      assert [] + DropTrailingCommas(b) == DropTrailingCommas(b);
    } else {
      DropSkips(a[1..], b);
      DropCopies(a[0], a[1..] + b);
      assert a + b == [a[0]] + (a[1..] + b);
      assert [a[0]] + (a[1..] + DropTrailingCommas(b)) == a + DropTrailingCommas(b);
    }
  }

  lemma DropObject(us: seq<Unit>, t: string)
    requires BraceFree(us)
    ensures DropTrailingCommas(ObjectString(us) + t) == "{" + (Inner(us) + DropTrailingCommas("}" + t))
  {
    InnerLacks(us, '}');
    var a := "{" + Inner(us);
    assert Lacks(a, '}') by { assert a[1..] == Inner(us); }
    hide Inner, DropTrailingCommas, BraceFree;
    assert ObjectString(us) + t == a + ("}" + t);
    DropSkips(a, "}" + t);
    assert a + DropTrailingCommas("}" + t) == "{" + (Inner(us) + DropTrailingCommas("}" + t));
  }

  /** What may follow the closing bracket: commas. */
  function Closing(commas: nat): (s: string)
    ensures s != [] && s[0] == ']'
  {
    "]" + Repeated(',', commas)
  }

  lemma {:induction false} CommasLack(n: nat, c: char)
    requires c != ','
    ensures Lacks(Repeated(',', n), c)
  {
    if n > 0 {
      CommasLack(n - 1, c);
      assert [','][1..] == [];
      LacksConcat(Repeated(',', n - 1), [','], c);
    }
  }

  lemma ClosingLacks(commas: nat, c: char)
    requires c == '{' || c == '}'
    ensures Lacks(Closing(commas), c)
  {
    CommasLack(commas, c);
    assert Closing(commas)[1..] == Repeated(',', commas);
  }

  lemma NothingDropped(a: string)
    requires Lacks(a, '}')
    ensures DropTrailingCommas(a) == a
  {
    DropSkips(a, "");
    assert a + "" == a;
  }

  lemma DropMatch(s: string, n: nat)
    requires TrailingComma(s) == Some(n)
    ensures DropTrailingCommas(s) == "}]" + DropTrailingCommas(s[n..])
  {
  }

  /** A comma and white space before the bracket are dropped. */
  lemma DropComma(ws: string, y: string)
    requires AllSpace(ws) && Lacks(y, '}')
    ensures DropTrailingCommas("}" + (("," + ws) + ("]" + y))) == "}" + ("]" + y)
  {
    var x := "]" + y;
    var s := "}" + (("," + ws) + x);
    SpacesAll(ws, x);
    assert s[2..] == ws + x;
    var n := 2 + |ws| + 1;
    assert s[n - 1] == ']';
    assert TrailingComma(s) == Some(n) && s[n..] == y;
    hide DropTrailingCommas, Spaces, TrailingComma;
    DropMatch(s, n);
    NothingDropped(y);
    assert "}]" + y == "}" + x;
  }

  lemma DropTail(tail: string, commas: nat)
    requires IsTail(tail)
    ensures DropTrailingCommas("}" + (tail + Closing(commas))) == "}" + Closing(commas)
  {
    var x, y := Closing(commas), Repeated(',', commas);
    CommasLack(commas, '}');
    if tail == "" {
      ClosingLacks(commas, '}');
      assert TrailingComma(['}'] + x) == None;
      hide DropTrailingCommas, Lacks;
      NothingDropped(x);
      DropCopies('}', x);
      assert "}" + (tail + x) == ['}'] + x;
    } else {
      assert tail == "," + tail[1..];
      hide DropTrailingCommas, Lacks;
      DropComma(tail[1..], y);
    }
  }

  lemma {:induction false} TrailingCommaDropped(us: seq<Unit>, rest: seq<seq<Unit>>, tail: string, commas: nat)
    requires BraceFree(us) && GoodValues(rest) && IsTail(tail)
    ensures DropTrailingCommas(ObjectString(us) + Canonical(rest, tail + Closing(commas)))
            == ObjectString(us) + Canonical(rest, Closing(commas))
    decreases |rest|
  {
    var end := Closing(commas);
    var t := Canonical(rest, tail + end);
    hide DropTrailingCommas, BraceFree, AllPlain, Inner, IsTail, Closing;
    DropObject(us, t);
    if rest == [] {
      DropTail(tail, commas);
      assert ObjectString(us) + end == "{" + (Inner(us) + ("}" + end));
    } else {
      TrailingCommaDropped(rest[0], rest[1..], tail, commas);
      var x := ObjectString(rest[0]) + Canonical(rest[1..], tail + end);
      var y := ObjectString(rest[0]) + Canonical(rest[1..], end);
      assert t == "," + x && x[0] == '{';
      CommaStays(x);
      assert "{" + (Inner(us) + ("}" + ("," + y))) == ObjectString(us) + ("," + y);
    }
  }

  lemma CommaStays(x: string)
    requires x != [] && x[0] == '{'
    ensures DropTrailingCommas("}" + ("," + x)) == "}" + ("," + DropTrailingCommas(x))
  {
    var s := "}" + ("," + x);
    assert s[2..] == x && Spaces(x) == 0;
    DropCopies('}', "," + x);
    DropCopies(',', x);
  }

  // ---------- the four rewrites together ----------

  predicate EndsWithBracket(s: string) { s != [] && s[|s| - 1] == ']' }

  lemma EndKept(a: string, b: string)
    requires EndsWithBracket(b)
    ensures EndsWithBracket(a + b)
  {
  }

  /** Dots behind such a text are not part of it. */
  predicate NoDotAtEnd(s: string) { s != [] && s[|s| - 1] != '.' }

  lemma NoDotKept(a: string, b: string)
    requires NoDotAtEnd(b)
    ensures NoDotAtEnd(a + b)
  {
  }

  lemma SloppyEnds(es: seq<Element>, t: string)
    requires NoDotAtEnd(t)
    ensures NoDotAtEnd(Sloppy(es, t))
  {
    if es != [] {
      SloppyEnds(es[1..], t);
      NoDotKept(ElementString(es[0]), Sloppy(es[1..], t));
      NoDotKept(if es[0].comma then "," else "", ElementString(es[0]) + Sloppy(es[1..], t));
    }
  }

  lemma CanonicalEnds(vs: seq<seq<Unit>>, t: string)
    requires EndsWithBracket(t)
    ensures EndsWithBracket(Canonical(vs, t))
  {
    hide ObjectString;
    if vs != [] {
      CanonicalEnds(vs[1..], t);
      EndKept(ObjectString(vs[0]), Canonical(vs[1..], t));
      EndKept(",", ObjectString(vs[0]) + Canonical(vs[1..], t));
    }
  }

  lemma ValuesAreGood(es: seq<Element>)
    requires GoodElements(es)
    ensures GoodValues(Values(es))
  {
    if es != [] {
      ValuesAreGood(es[1..]);
      var vs := Values(es[1..]);
      if es[0].units.Some? {
        assert ([es[0].units.value] + vs)[1..] == vs;
      } else {
        assert [] + vs == vs;
      }
    }
  }

  lemma SpacesLack(ws: string, c: char)
    requires AllSpace(ws) && !IsSpace(c)
    ensures Lacks(ws, c)
  {
    if ws != [] { SpacesLack(ws[1..], c); }
  }

  lemma TailIsPlain(tail: string, commas: nat)
    requires IsTail(tail)
    ensures PlainTail(tail + Closing(commas)) && NoDotAtEnd(tail + Closing(commas))
  {
    ClosingLacks(commas, '{');
    ClosingLacks(commas, '}');
    assert commas > 0 ==> Repeated(',', commas)[|Repeated(',', commas)| - 1] == ',';
    if tail != "" {
      SpacesLack(tail[1..], '{');
      SpacesLack(tail[1..], '}');
    }
    LacksConcat(tail, Closing(commas), '{');
    LacksConcat(tail, Closing(commas), '}');
  }

  function SloppyArray(first: seq<Unit>, es: seq<Element>, tail: string, commas: nat): string {
    "[" + (ObjectString(first) + Sloppy(es, tail + Closing(commas)))
  }

  function CanonicalArray(first: seq<Unit>, rest: seq<seq<Unit>>): string {
    "[" + (ObjectString(first) + Canonical(rest, "]"))
  }

  lemma BracesRepaired(first: seq<Unit>, es: seq<Element>, t: string)
    requires AllPlain(first) && BraceFree(first) && GoodElements(es) && PlainTail(t)
    ensures ReplaceAll(ReplaceAll("[" + (ObjectString(first) + Sloppy(es, t)), GLUED, APART), EMPTY, "") ==
              "[" + (ObjectString(first) + Canonical(Values(es), t))
  {
    var e := Element(false, Some(first));
    assert ([e] + es)[1..] == es;
    assert GLUED[0] == '}' && EMPTY[0] == ',';
    hide *;
    assert ElementString(e) == ObjectString(first) && GoodElements([e] + es) by { ElementIs(e, es); }
    ReplaceCopies('[', ObjectString(first) + Sloppy(es, t), GLUED, APART);
    CommasInserted(e, es, t);
    ReplaceCopies('[', ObjectString(first) + Separated(es, t), EMPTY, "");
    ObjectStays(first, Separated(es, t));
    EmptyObjectsDropped(es, t);
  }

  lemma ElementIs(e: Element, es: seq<Element>)
    requires e.units.Some? && AllPlain(e.units.value) && BraceFree(e.units.value) && GoodElements(es)
    ensures ElementString(e) == ObjectString(e.units.value) && GoodElements([e] + es)
  {
    assert ([e] + es)[1..] == es;
  }

  lemma CanonicalConcat(vs: seq<seq<Unit>>, t: string, x: string)
    ensures Canonical(vs, t) + x == Canonical(vs, t + x)
  {
    hide ObjectString;
    if vs != [] {
      CanonicalConcat(vs[1..], t, x);
      var rest := Canonical(vs[1..], t);
      assert "," + (ObjectString(vs[0]) + rest) + x == "," + (ObjectString(vs[0]) + (rest + x));
    }
  }

  /** Commas behind the bracket are trimmed. */
  lemma CommasTrimmed(first: seq<Unit>, vs: seq<seq<Unit>>, commas: nat)
    ensures TrimRight("[" + (ObjectString(first) + Canonical(vs, Closing(commas))), ',') == CanonicalArray(first, vs)
  {
    var x := Repeated(',', commas);
    CanonicalArrayEnds(first, vs);
    CanonicalConcat(vs, "]", x);
    hide ObjectString, Canonical, Repeated, TrimRight;
    var s := ObjectString(first) + Canonical(vs, "]");
    assert "[" + (ObjectString(first) + (Canonical(vs, "]") + x)) == "[" + s + x;
    TrimAll(CanonicalArray(first, vs), ',', commas);
  }

  /** Every sloppy rendering of a list of brace-free values is rewritten to the one canonical array. */
  lemma RepairIsCanonical(first: seq<Unit>, es: seq<Element>, tail: string, commas: nat, dots: nat)
    requires AllPlain(first) && BraceFree(first) && GoodElements(es) && IsTail(tail)
    ensures PreprocessJSON(SloppyArray(first, es, tail, commas) + Repeated('.', dots)) == CanonicalArray(first, Values(es))
  {
    var t := tail + Closing(commas);
    var vs := Values(es);
    var s := SloppyArray(first, es, tail, commas);
    SloppyArrayEnds(first, es, tail, commas);
    assert s == "[" + (ObjectString(first) + Sloppy(es, t));
    assert s != [] && s[|s| - 1] != '.';
    hide *;
    TailIsPlain(tail, commas);
    ValuesAreGood(es);
    TrimAll(s, '.', dots);
    BracesRepaired(first, es, t);
    DropTrailingCommaInArray(first, vs, tail, commas);
    CommasTrimmed(first, vs, commas);
    PreprocessSteps(s + Repeated('.', dots));
  }

  lemma PreprocessSteps(s: string)
    ensures PreprocessJSON(s) ==
              TrimRight(DropTrailingCommas(ReplaceAll(ReplaceAll(TrimRight(s, '.'), GLUED, APART), EMPTY, "")), ',')
  {
    hide TrimRight, DropTrailingCommas, ReplaceAll;
  }

  lemma SloppyArrayEnds(first: seq<Unit>, es: seq<Element>, tail: string, commas: nat)
    requires IsTail(tail)
    ensures NoDotAtEnd(SloppyArray(first, es, tail, commas))
  {
    TailIsPlain(tail, commas);
    SloppyEnds(es, tail + Closing(commas));
    NoDotKept(ObjectString(first), Sloppy(es, tail + Closing(commas)));
    NoDotKept("[", ObjectString(first) + Sloppy(es, tail + Closing(commas)));
  }

  lemma CanonicalArrayEnds(first: seq<Unit>, vs: seq<seq<Unit>>)
    ensures EndsWithBracket(CanonicalArray(first, vs))
  {
    CanonicalEnds(vs, "]");
    EndKept(ObjectString(first), Canonical(vs, "]"));
    EndKept("[", ObjectString(first) + Canonical(vs, "]"));
  }

  lemma DropTrailingCommaInArray(first: seq<Unit>, vs: seq<seq<Unit>>, tail: string, commas: nat)
    requires BraceFree(first) && GoodValues(vs) && IsTail(tail)
    ensures DropTrailingCommas("[" + (ObjectString(first) + Canonical(vs, tail + Closing(commas))))
            == "[" + (ObjectString(first) + Canonical(vs, Closing(commas)))
  {
    hide ObjectString, Canonical, DropTrailingCommas, BraceFree, GoodValues, IsTail, Closing;
    DropCopies('[', ObjectString(first) + Canonical(vs, tail + Closing(commas)));
    TrailingCommaDropped(first, vs, tail, commas);
  }
}
