/**
 Where the text repair changes what it should not: an array that is well formed already is rewritten exactly
 when one of its values holds a text that the repair takes for a defect (RepairLeavesExactly).
 */
module RepairLimits {
  import opened Options
  import opened TextExtraction
  import opened TextRepair

  /** A defect that one of the rewrites removes begins here. */
  predicate DefectHere(s: string) { GLUED <= s || EMPTY <= s || TrailingComma(s).Some? }

  predicate Defective(s: string) { s != [] && (DefectHere(s) || Defective(s[1..])) }

  // ---------- one rewrite at a time ----------

  predicate Holds(s: string, old_: string) { s != [] && (old_ <= s || Holds(s[1..], old_)) }

  predicate HoldsTrailing(s: string) { s != [] && (TrailingComma(s).Some? || HoldsTrailing(s[1..])) }

  lemma DefectiveIs(s: string)
    ensures Defective(s) <==> Holds(s, GLUED) || Holds(s, EMPTY) || HoldsTrailing(s)
  {
  }

  lemma ReplaceNothing(s: string, old_: string, new_: string)
    requires old_ != [] && !Holds(s, old_)
    ensures ReplaceAll(s, old_, new_) == s
  {
    if s != [] { ReplaceNothing(s[1..], old_, new_); }
  }

  lemma DropNothing(s: string)
    requires !HoldsTrailing(s)
    ensures DropTrailingCommas(s) == s
  {
    if s != [] { DropNothing(s[1..]); }
  }

  /** How often a character stands in a text. */
  function Count(s: string, c: char): nat { if s == [] then 0 else (if s[0] == c then 1 else 0) + Count(s[1..], c) }

  lemma CountConcat(a: string, b: string, c: char)
    ensures Count(a + b, c) == Count(a, c) + Count(b, c)
  {
    if a == [] {
      assert a + b == b;
    } else {
      assert (a + b)[1..] == a[1..] + b;
      CountConcat(a[1..], b, c);
    }
  }

  /** Inserting commas keeps the opening braces. */
  lemma {:induction false} InsertingKeeps(s: string)
    ensures Count(ReplaceAll(s, GLUED, APART), '{') == Count(s, '{')
    decreases |s|
  {
    if s == [] {
    } else if GLUED <= s {
      var t := s[2..];
      InsertingKeeps(t);
      assert s == GLUED + t;
      CountConcat(GLUED, t, '{');
      CountConcat(APART, ReplaceAll(t, GLUED, APART), '{');
      BracesIn();
    } else {
      InsertingKeeps(s[1..]);
      var r := ReplaceAll(s[1..], GLUED, APART);
      assert ([s[0]] + r)[1..] == r;
    }
  }

  lemma BracesIn()
    ensures Count(GLUED, '{') == Count(APART, '{') == Count(EMPTY, '{') == 1
  {
    assert GLUED[1..] == "{" && "{"[1..] == "";
    assert APART[1..] == ",{" && ",{"[1..] == "{";
    assert EMPTY[1..] == "{}" && "{}"[1..] == "}" && "}"[1..] == "";
  }

  /** Dropping empty objects costs an opening brace for each. */
  lemma {:induction false} DroppingCosts(s: string)
    ensures Count(ReplaceAll(s, EMPTY, ""), '{') <= Count(s, '{')
    ensures Holds(s, EMPTY) ==> Count(ReplaceAll(s, EMPTY, ""), '{') < Count(s, '{')
    decreases |s|
  {
    if s == [] {
    } else if EMPTY <= s {
      var t := s[3..];
      DroppingCosts(t);
      assert s == EMPTY + t && "" + ReplaceAll(t, EMPTY, "") == ReplaceAll(t, EMPTY, "");
      CountConcat(EMPTY, t, '{');
      BracesIn();
    } else {
      DroppingCosts(s[1..]);
      var r := ReplaceAll(s[1..], EMPTY, "");
      assert ([s[0]] + r)[1..] == r;
    }
  }

  lemma SpacesCount(s: string)
    ensures Count(s[..Spaces(s)], '{') == 0
  {
    if s != [] && IsSpace(s[0]) {
      SpacesCount(s[1..]);
      assert s[..Spaces(s)][1..] == s[1..][..Spaces(s[1..])];
    }
  }

  lemma MatchCount(s: string)
    requires TrailingComma(s).Some?
    ensures Count(s[..TrailingComma(s).value], '{') == 0
  {
    var n := TrailingComma(s).value;
    var k := Spaces(s[2..]);
    SpacesCount(s[2..]);
    assert s[..n] == "}," + (s[2..][..k] + "]");
    CountConcat("},", s[2..][..k] + "]", '{');
    CountConcat(s[2..][..k], "]", '{');
    assert "},"[1..] == "," && ","[1..] == "" && "]"[1..] == "";
  }

  /** Dropping commas before brackets keeps the opening braces. */
  lemma {:induction false} BracketsKeep(s: string)
    ensures Count(DropTrailingCommas(s), '{') == Count(s, '{')
    decreases |s|
  {
    if s == [] {
    } else if TrailingComma(s).Some? {
      var n := TrailingComma(s).value;
      BracketsKeep(s[n..]);
      MatchCount(s);
      assert s == s[..n] + s[n..];
      CountConcat(s[..n], s[n..], '{');
      CountConcat("}]", DropTrailingCommas(s[n..]), '{');
      assert "}]"[1..] == "]" && "]"[1..] == "";
    } else {
      BracketsKeep(s[1..]);
      var r := DropTrailingCommas(s[1..]);
      assert ([s[0]] + r)[1..] == r;
    }
  }

  // ---------- together ----------

  function Inserted(s: string): string { ReplaceAll(s, GLUED, APART) }

  lemma InsertedGlued(s: string)
    requires GLUED <= s
    ensures var d := DropTrailingCommas(Inserted(s)); |d| >= 2 && d[1] == ','
  {
    var r := Inserted(s[2..]);
    assert Inserted(s) == APART + r;
    var u := APART + r;
    assert u[2..][0] == '{' && Spaces(u[2..]) == 0;
    assert u == ['}'] + ([','] + u[2..]);
    DropCopies('}', [','] + u[2..]);
    DropCopies(',', u[2..]);
  }

  lemma InsertedStart(t: string)
    requires Inserted(t) != [] && Inserted(t)[0] == ','
    ensures t != [] && t[0] == ','
  {
  }

  lemma DroppedStart(c: char, t: string)
    requires TrailingComma([c] + Inserted(t)).Some?
    ensures var d := DropTrailingCommas([c] + Inserted(t)); |d| >= 2 && d[1] == ']' && t != [] && t[0] == ','
  {
    var u := [c] + Inserted(t);
    assert u[1] == Inserted(t)[0];
    InsertedStart(t);
  }

  /** Inserting commas and dropping them before brackets never make up for each other. */
  lemma {:induction false} NoMakingUp(s: string)
    requires DropTrailingCommas(Inserted(s)) == s
    ensures !Holds(s, GLUED) && !HoldsTrailing(s)
    decreases |s|
  {
    if s != [] {
      if GLUED <= s { InsertedGlued(s); }
      var c, t := s[0], s[1..];
      assert Inserted(s) == [c] + Inserted(t) && s == [c] + t;
      if TrailingComma([c] + Inserted(t)).Some? { DroppedStart(c, t); }
      DropCopies(c, Inserted(t));
      assert ([c] + DropTrailingCommas(Inserted(t)))[1..] == DropTrailingCommas(Inserted(t));
      NoMakingUp(t);
      ReplaceNothing(t, GLUED, APART);
    }
  }

  /** The three rewrites leave a text as it is exactly when it has no defect. */
  lemma {:induction false} RewritesLeaveExactly(s: string)
    ensures DropTrailingCommas(ReplaceAll(Inserted(s), EMPTY, "")) == s <==> !Defective(s)
  {
    var u := Inserted(s);
    var v := ReplaceAll(u, EMPTY, "");
    DefectiveIs(s);
    if !Defective(s) {
      ReplaceNothing(s, GLUED, APART);
      ReplaceNothing(s, EMPTY, "");
      DropNothing(s);
    } else if DropTrailingCommas(v) == s {
      InsertingKeeps(s);
      DroppingCosts(u);
      BracketsKeep(v);
      ReplaceNothing(u, EMPTY, "");
      NoMakingUp(s);
      ReplaceNothing(s, GLUED, APART);
    }
  }

  // ---------- the ends of an array ----------

  lemma {:induction false} ReplaceKeepsEnd(s: string, old_: string, new_: string)
    requires EndsWithBracket(s) && old_ != [] && ']' !in old_
    ensures EndsWithBracket(ReplaceAll(s, old_, new_))
    decreases |s|
  {
    if old_ <= s {
      assert s != old_ by { assert s[|s| - 1] == ']'; }
      assert s == old_ + s[|old_|..];
      ReplaceKeepsEnd(s[|old_|..], old_, new_);
      EndKept(new_, ReplaceAll(s[|old_|..], old_, new_));
    } else if |s| > 1 {
      ReplaceKeepsEnd(s[1..], old_, new_);
      EndKept([s[0]], ReplaceAll(s[1..], old_, new_));
    }
  }

  lemma {:induction false} DropKeepsEnd(s: string)
    requires EndsWithBracket(s)
    ensures EndsWithBracket(DropTrailingCommas(s))
    decreases |s|
  {
    match TrailingComma(s)
    case Some(n) =>
      if n < |s| {
        DropKeepsEnd(s[n..]);
        EndKept("}]", DropTrailingCommas(s[n..]));
      } else {
        assert s[n..] == [] && "}]" + [] == "}]";
      }
    case None =>
      if |s| > 1 {
        DropKeepsEnd(s[1..]);
        EndKept([s[0]], DropTrailingCommas(s[1..]));
      }
  }

  /** The whole repair leaves a text that ends in a bracket as it is exactly when it has no defect. */
  lemma {:induction false} ArraysAreLeftExactly(s: string)
    requires EndsWithBracket(s)
    ensures PreprocessJSON(s) == s <==> !Defective(s)
  {
    var u := Inserted(s);
    var v := ReplaceAll(u, EMPTY, "");
    TrimAll(s, '.', 0);
    assert Repeated('.', 0) == "" && s + "" == s;
    ReplaceKeepsEnd(s, GLUED, APART);
    ReplaceKeepsEnd(u, EMPTY, "");
    DropKeepsEnd(v);
    TrimAll(DropTrailingCommas(v), ',', 0);
    assert Repeated(',', 0) == "" && DropTrailingCommas(v) + "" == DropTrailingCommas(v);
    PreprocessSteps(s);
    hide *;
    RewritesLeaveExactly(s);
  }

  // ---------- values ----------

  lemma SpacesToQuote(a: string, b: string)
    ensures Spaces(a + (['"'] + b)) == Spaces(a)
  {
    if a == [] {
      assert a + (['"'] + b) == ['"'] + b;
    } else {
      assert (a + (['"'] + b))[1..] == a[1..] + (['"'] + b);
      SpacesToQuote(a[1..], b);
    }
  }

  /** A defect does not reach over a quote. */
  lemma {:induction false} DefectStopsAtQuote(a: string, b: string)
    requires a != []
    ensures DefectHere(a + (['"'] + b)) <==> DefectHere(a)
  {
    var s := a + (['"'] + b);
    if |a| >= 2 {
      assert s[2..] == a[2..] + (['"'] + b);
      SpacesToQuote(a[2..], b);
      if |a| >= 3 { assert s[..3] == a[..3]; } else { assert s[2] == '"'; }
      assert s[0] == a[0] && s[1] == a[1];
    } else {
      assert s[1] == '"';
    }
  }

  lemma QuoteIsNoDefect(b: string)
    ensures !DefectHere(['"'] + b)
  {
    assert (['"'] + b)[0] != '}' && (['"'] + b)[0] != ',';
    assert GLUED[0] == '}' && EMPTY[0] == ',';
  }

  lemma {:induction false} QuoteSplits(a: string, b: string)
    ensures Defective(a + (['"'] + b)) <==> Defective(a) || Defective(b)
    decreases |a|
  {
    var s := a + (['"'] + b);
    if a == [] {
      assert s == ['"'] + b && s[1..] == b;
      QuoteIsNoDefect(b);
    } else {
      DefectStopsAtQuote(a, b);
      assert s[0] == a[0] && s[1..] == a[1..] + (['"'] + b);
      hide DefectHere;
      QuoteSplits(a[1..], b);
    }
  }

  predicate AnyDefective(vs: seq<seq<Unit>>) { vs != [] && (Defective(Render(vs[0])) || AnyDefective(vs[1..])) }

  lemma OneMore(c: char, t: string)
    requires !Defective(t) && !DefectHere([c] + t)
    ensures !Defective([c] + t)
  {
    assert ([c] + t)[1..] == t;
    hide DefectHere;
  }

  lemma NoStartOfOne(c: char, t: string)
    requires c != '}' && c != ','
    ensures !DefectHere([c] + t)
  {
    assert GLUED[0] == '}' && EMPTY[0] == ',';
    assert ([c] + t)[0] == c;
  }

  lemma PlainChar(c: char, t: string)
    requires !Defective(t) && c != '}' && c != ','
    ensures !Defective([c] + t)
  {
    NoStartOfOne(c, t);
    OneMore(c, t);
  }

  lemma Separators()
    ensures !DefectHere(['}'] + "]") && !DefectHere([','] + "{") && !DefectHere(['}'] + ",{")
  {
    var a, b, c := ['}'] + "]", [','] + "{", ['}'] + ",{";
    assert |a| == 2 && a[1] == ']' && |b| == 2 && |c| == 3 && c[1] == ',' && c[2] == '{' && c[2..] == "{";
    assert Spaces("{") == 0 && GLUED[1] == '{' && EMPTY[0] == ',' && GLUED[0] == '}';
  }

  lemma BetweenQuotes()
    ensures !Defective("") && !Defective("[{") && !Defective("},{") && !Defective("}]") && !Defective("data") && !Defective(":")
  {
    hide DefectHere;
    assert [':'] + "" == ":" && ['a'] + "" == "a" && ['t'] + "a" == "ta" && ['a'] + "ta" == "ata" && ['d'] + "ata" == "data";
    assert ['{'] + "" == "{" && ['['] + "{" == "[{" && [']'] + "" == "]" && [','] + "{" == ",{" && ['}'] + ",{" == "},{";
    assert ['}'] + "]" == "}]";
    PlainChar(':', "");
    PlainChar('a', "");
    PlainChar('t', "a");
    PlainChar('a', "ta");
    PlainChar('d', "ata");
    PlainChar('{', "");
    PlainChar('[', "{");
    PlainChar(']', "");
    Separators();
    OneMore(',', "{");
    OneMore('}', ",{");
    OneMore('}', "]");
  }

  /** An object and what follows it, behind a text that has no defect and no quote to its right. */
  lemma {:induction false} ObjectDefects(before: string, us: seq<Unit>, after: string)
    requires !Defective(before + "{")
    ensures Defective(before + (ObjectString(us) + after)) <==> Defective(Render(us)) || Defective("}" + after)
  {
    var r := Render(us);
    BetweenQuotes();
    var s3 := "}" + after;
    var s2 := r + (['"'] + s3);
    var s1 := ":" + (['"'] + s2);
    var s0 := "data" + (['"'] + s1);
    QuoteSplits(before + "{", s0);
    QuoteSplits("data", s1);
    QuoteSplits(":", s2);
    QuoteSplits(r, s3);
    hide Defective;
    ObjectText(before, us, after);
  }

  lemma ObjectText(before: string, us: seq<Unit>, after: string)
    ensures before + (ObjectString(us) + after) ==
              before + "{" + (['"'] + ("data" + (['"'] + (":" + (['"'] + (Render(us) + (['"'] + ("}" + after))))))))
  {
    assert "\"data\":\"" == ['"'] + ("data" + (['"'] + (":" + ['"'])));
  }

  lemma {:induction false} RestDefects(vs: seq<seq<Unit>>)
    ensures Defective("}" + Canonical(vs, "]")) <==> AnyDefective(vs)
    decreases |vs|
  {
    BetweenQuotes();
    hide Defective;
    if vs == [] {
      assert "}" + "]" == "}]";
    } else {
      RestDefects(vs[1..]);
      var after := Canonical(vs[1..], "]");
      assert "}," + "{" == "},{";
      ObjectDefects("},", vs[0], after);
      assert "}" + ("," + (ObjectString(vs[0]) + after)) == "}," + (ObjectString(vs[0]) + after);
    }
  }

  /**
   The repair leaves a canonical array as it is exactly when no value of it holds a defect: a closing and an
   opening brace in a row, a comma and an empty object, or a closing brace and a comma before a bracket.
   */
  lemma {:induction false} RepairLeavesExactly(first: seq<Unit>, rest: seq<seq<Unit>>)
    ensures PreprocessJSON(CanonicalArray(first, rest)) == CanonicalArray(first, rest) <==>
              !Defective(Render(first)) && !AnyDefective(rest)
  {
    var after := Canonical(rest, "]");
    CanonicalArrayEnds(first, rest);
    BetweenQuotes();
    assert "[" + "{" == "[{";
    hide PreprocessJSON, Defective, Canonical;
    ArraysAreLeftExactly(CanonicalArray(first, rest));
    ObjectDefects("[", first, after);
    RestDefects(rest);
  }
}
