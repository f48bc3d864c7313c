/**
 Strict decoding of arrays of data objects, and the decoder that falls back to extraction.

 DecodersAgreeExactly shows that on an array the strict decoder accepts, extraction finds the same values
 exactly when no value has an escape of a code point; SloppyArraysDecode joins strict decoding with the
 repair of the text.
 */
module StrictDecoding {
  import opened Options
  import opened TextExtraction
  import opened TextRepair

  // ---------- strict decoding ----------

  predicate IsJSONSpace(c: char) { c == ' ' || c == '\t' || c == '\n' || c == '\r' }

  function SkipJSONSpace(s: string): (r: string)
    ensures |r| <= |s|
  {
    if s != [] && IsJSONSpace(s[0]) then SkipJSONSpace(s[1..]) else s
  }

  /** A unit of a JSON string (section 7 of RFC 8259), but for the escapes of code points. */
  predicate Strict(u: Unit) {
    match u
    case Raw(c) => c != '"' && c != '\\' && c >= ' '
    case Escaped(c) => c in {'"', '\\', '/', 'b', 'f', 'n', 'r', 't'}
  }

  type FourDigits = d: string | |d| == 4 witness "0000"

  /** A character of a string, or an escaped UTF-16 code unit. */
  datatype Piece = Char(c: char) | CodeUnit(digits: FourDigits)

  predicate IsHex(c: char) { '0' <= c <= '9' || 'a' <= c <= 'f' || 'A' <= c <= 'F' }

  function HexValue(c: char): (n: nat)
    ensures n < 16
  {
    if '0' <= c <= '9' then (c - '0') as int
    else if 'a' <= c <= 'f' then (c - 'a') as int + 10
    else if 'A' <= c <= 'F' then (c - 'A') as int + 10
    else 0
  }

  function HexNumber(digits: string): nat {
    if digits == [] then 0 else HexNumber(digits[..|digits| - 1]) * 16 + HexValue(digits[|digits| - 1])
  }

  function ReadHex(s: string, k: nat): (r: Option<(string, string)>)
    ensures r.Some? ==> |r.value.0| == k && |r.value.1| == |s| - k
  {
    if k == 0 then Some(([], s))
    else if s == [] || !IsHex(s[0]) then None
    else
      var (d, t) :- ReadHex(s[1..], k - 1);
      Some(([s[0]] + d, t))
  }

  /** A JSON string from behind its opening quote, closed by a quote and a brace. */
  function StrictValue(s: string): (r: Option<(seq<Piece>, string)>)
    ensures r.Some? ==> |r.value.1| < |s|
    decreases |s|
  {
    if s == [] then None
    else if s[0] == '"' then
      if |s| >= 2 && s[1] == '}' then Some(([], s[2..])) else None
    else if s[0] == '\\' then
      if |s| < 2 then None
      else if s[1] == 'u' then
        var (d, s') :- ReadHex(s[2..], 4);
        var (ps, t) :- StrictValue(s');
        Some(([CodeUnit(d)] + ps, t))
      else if !Strict(Escaped(s[1])) then None
      else
        var (ps, t) :- StrictValue(s[2..]);
        Some(([Char(Unescape(s[1]))] + ps, t))
    else if !Strict(Raw(s[0])) then None
    else
      var (ps, t) :- StrictValue(s[1..]);
      Some(([Char(s[0])] + ps, t))
  }

  const REPLACEMENT: char := '\U{FFFD}'

  /** The character of a code unit; half of a surrogate pair is replaced. */
  function CharOf(n: nat): char {
    if n < 0xD800 || 0xE000 <= n < 0x10000 then n as char else REPLACEMENT
  }

  /** The string that pieces mean: adjacent halves of a surrogate pair are one character. */
  function Combine(ps: seq<Piece>): string {
    if ps == [] then []
    else match ps[0]
      case Char(c) => [c] + Combine(ps[1..])
      case CodeUnit(d) =>
        var high := HexNumber(d);
        if |ps| >= 2 && ps[1].CodeUnit? && 0xD800 <= high < 0xDC00 && 0xDC00 <= HexNumber(ps[1].digits) < 0xE000 then
          [(0x10000 + (high - 0xD800) * 0x400 + (HexNumber(ps[1].digits) - 0xDC00)) as char] + Combine(ps[2..])
        else [CharOf(high)] + Combine(ps[1..])
  }

  function Combined(pss: seq<seq<Piece>>): seq<string> {
    if pss == [] then [] else [Combine(pss[0])] + Combined(pss[1..])
  }

  /** What extraction makes of pieces: it drops the backslash of an escape it does not know. */
  function Literal(ps: seq<Piece>): string {
    if ps == [] then [] else (if ps[0].Char? then [ps[0].c] else "u" + ps[0].digits) + Literal(ps[1..])
  }

  function Literals(pss: seq<seq<Piece>>): seq<string> {
    if pss == [] then [] else [Literal(pss[0])] + Literals(pss[1..])
  }

  /** An object of the shape {"data":"..."}, with white space allowed around its colon. */
  function StrictObject(s: string): (r: Option<(seq<Piece>, string)>)
    ensures r.Some? ==> |r.value.1| < |s|
  {
    var n :- StartLength(s);
    if FORM_FEED in s[..n] then None else StrictValue(s[n..])
  }

  /** What follows an object of an array: the other objects and the end of the text. */
  function StrictRest(s: string): Option<seq<seq<Piece>>>
    decreases |s|
  {
    var s1 := SkipJSONSpace(s);
    if s1 == [] then None
    else if s1[0] == ']' then
      if SkipJSONSpace(s1[1..]) == [] then Some([]) else None
    else if s1[0] == ',' then
      var (v, t) :- StrictObject(SkipJSONSpace(s1[1..]));
      var vs :- StrictRest(t);
      Some([v] + vs)
    else None
  }

  /** What follows the opening bracket of an array. */
  function StrictItems(s: string): Option<seq<seq<Piece>>> {
    var s2 := SkipJSONSpace(s);
    if s2 != [] && s2[0] == ']' then
      if SkipJSONSpace(s2[1..]) == [] then Some([]) else None
    else
      var (v, t) :- StrictObject(s2);
      var vs :- StrictRest(t);
      Some([v] + vs)
  }

  /** An array of data objects. */
  function StrictArray(s: string): Option<seq<seq<Piece>>> {
    var s1 := SkipJSONSpace(s);
    if s1 == [] || s1[0] != '[' then None else StrictItems(s1[1..])
  }

  /** Strict decoding of an array of data objects. */
  function StrictDecode(s: string): Option<seq<string>> {
    var pss :- StrictArray(s);
    Some(Combined(pss))
  }

  function OutcomesOfValues(vs: seq<string>): seq<Outcome> {
    if vs == [] then [] else [if vs[0] == "" then EmptyData else Item(vs[0])] + OutcomesOfValues(vs[1..])
  }

  lemma SpaceIsSilent(s: string)
    ensures Outcomes(s) == Outcomes(SkipJSONSpace(s))
  {
    if s != [] && IsJSONSpace(s[0]) {
      NoBraceNoStart(s);
      SpaceIsSilent(s[1..]);
    }
  }

  lemma {:induction false} HexReads(s: string, k: nat)
    requires ReadHex(s, k).Some?
    ensures var (d, t) := ReadHex(s, k).value;
            ReadValue(s) == match ReadValue(t) case Some((v, rest)) => Some((d + v, rest)) case None => None
  {
    if k == 0 {
      assert ReadValue(s).Some? ==> [] + ReadValue(s).value.0 == ReadValue(s).value.0;
    } else {
      HexReads(s[1..], k - 1);
      var (d, t) := ReadHex(s[1..], k - 1).value;
      if ReadValue(t).Some? { assert [s[0]] + d + ReadValue(t).value.0 == [s[0]] + (d + ReadValue(t).value.0); }
    }
  }

  lemma {:induction false} StrictValueReads(s: string)
    requires StrictValue(s).Some?
    ensures var (ps, t) := StrictValue(s).value; ReadValue(s) == Some((Literal(ps), t))
    decreases |s|
  {
    if s[0] == '"' {
    } else if s[0] == '\\' && s[1] == 'u' {
      var (d, s') := ReadHex(s[2..], 4).value;
      StrictValueReads(s');
      CodeUnitReads(s, d, s');
    } else {
      var s' := if s[0] == '\\' then s[2..] else s[1..];
      StrictValueReads(s');
      CharReads(s, s');
    }
  }

  lemma CodeUnitReads(s: string, d: FourDigits, s': string)
    requires |s| >= 2 && s[0] == '\\' && s[1] == 'u' && ReadHex(s[2..], 4) == Some((d, s'))
    requires StrictValue(s').Some? && (var (ps, t) := StrictValue(s').value; ReadValue(s') == Some((Literal(ps), t)))
    ensures StrictValue(s).Some? && (var (ps, t) := StrictValue(s).value; ReadValue(s) == Some((Literal(ps), t)))
  {
    HexReads(s[2..], 4);
    hide ReadHex;
    var (ps, t) := StrictValue(s').value;
    assert ([CodeUnit(d)] + ps)[1..] == ps;
    assert "u" + (d + Literal(ps)) == "u" + d + Literal(ps);
  }

  lemma CharReads(s: string, s': string)
    requires s != [] && s[0] != '"' && StrictValue(s).Some? && !(s[0] == '\\' && s[1] == 'u')
    requires s' == if s[0] == '\\' then s[2..] else s[1..]
    requires StrictValue(s').Some? && (var (ps, t) := StrictValue(s').value; ReadValue(s') == Some((Literal(ps), t)))
    ensures var (ps, t) := StrictValue(s).value; ReadValue(s) == Some((Literal(ps), t))
  {
    hide ReadHex;
    var (ps, t) := StrictValue(s').value;
    assert StrictValue(s).value.0[1..] == ps;
  }

  lemma {:induction false} StrictObjectIsOneOutcome(s: string)
    requires StrictObject(s).Some?
    ensures var (ps, t) := StrictObject(s).value;
            Outcomes(s) == OutcomesOfValues([Literal(ps)]) + Outcomes(t)
  {
    hide StartLength, ReadValue, StrictValue, Outcomes, Literal;
    var n := StartLength(s).value;
    StrictValueReads(s[n..]);
    ReadObjectIsOneOutcome(s, n);
  }

  lemma {:induction false} ReadObjectIsOneOutcome(s: string, n: nat)
    requires StartLength(s) == Some(n) && ReadValue(s[n..]).Some?
    ensures var (v, t) := ReadValue(s[n..]).value;
            Outcomes(s) == OutcomesOfValues([v]) + Outcomes(t)
  {
    hide *;
    var (v, t) := ReadValue(s[n..]).value;
    ValueOutcome(s, n);
    StartIsOneOutcome(s, n);
    var us := ReadSound(s[n..]);
    ValueIsSilent(us, t);
  }

  lemma ValueOutcome(s: string, n: nat)
    requires StartLength(s) == Some(n) && ReadValue(s[n..]).Some?
    ensures OutcomesOfValues([ReadValue(s[n..]).value.0]) == [OutcomeAt(s)]
  {
    hide StartLength, ReadValue;
    assert [ReadValue(s[n..]).value.0][1..] == [];
  }

  lemma StartIsOneOutcome(s: string, n: nat)
    requires StartLength(s) == Some(n)
    ensures Outcomes(s) == [OutcomeAt(s)] + Outcomes(s[n..])
  {
    hide StartLength, OutcomeAt;
    assert s[0..] == s;
    SkipMatch(s, 0, n);
  }

  lemma {:induction false} StrictRestAgrees(s: string)
    requires StrictRest(s).Some?
    ensures Outcomes(s) == OutcomesOfValues(Literals(StrictRest(s).value))
    decreases |s|
  {
    var s1 := SkipJSONSpace(s);
    hide StrictObject, Outcomes;
    SpaceIsSilent(s);
    CharIsSilent(s1);
    SpaceIsSilent(s1[1..]);
    if s1[0] == ']' {
      NothingIsSilent();
    } else {
      var s2 := SkipJSONSpace(s1[1..]);
      var (v, t) := StrictObject(s2).value;
      StrictObjectIsOneOutcome(s2);
      StrictRestAgrees(t);
      assert ([v] + StrictRest(t).value)[1..] == StrictRest(t).value;
      FirstLiteral(v, StrictRest(t).value);
    }
  }

  lemma FirstLiteral(ps: seq<Piece>, pss: seq<seq<Piece>>)
    ensures OutcomesOfValues(Literals([ps] + pss)) == OutcomesOfValues([Literal(ps)]) + OutcomesOfValues(Literals(pss))
  {
    assert ([ps] + pss)[1..] == pss;
    assert ([Literal(ps)] + Literals(pss))[1..] == Literals(pss);
    assert [Literal(ps)][1..] == [];
  }

  lemma NothingIsSilent()
    ensures Outcomes("") == []
  {
  }

  /** On every array the strict decoder accepts, extraction finds one item per non-empty value and one invalid
      record per empty one, with each escape of a code point left as its letters. */
  lemma {:induction false} StrictAgreesWithExtraction(s: string)
    requires StrictArray(s).Some?
    ensures Outcomes(s) == OutcomesOfValues(Literals(StrictArray(s).value))
  {
    var s1 := SkipJSONSpace(s);
    hide StrictObject, Outcomes, StrictRest;
    SpaceIsSilent(s);
    CharIsSilent(s1);
    StrictItemsAgree(s1[1..]);
  }

  lemma {:induction false} StrictItemsAgree(s: string)
    requires StrictItems(s).Some?
    ensures Outcomes(s) == OutcomesOfValues(Literals(StrictItems(s).value))
  {
    var s2 := SkipJSONSpace(s);
    hide StrictObject, Outcomes, StrictRest, SkipJSONSpace;
    SpaceIsSilent(s);
    if s2 != [] && s2[0] == ']' {
      CharIsSilent(s2);
      SpaceIsSilent(s2[1..]);
      NothingIsSilent();
    } else {
      var (v, t) := StrictObject(s2).value;
      StrictObjectIsOneOutcome(s2);
      StrictRestAgrees(t);
      FirstLiteral(v, StrictRest(t).value);
    }
  }

  predicate NoCodeUnit(ps: seq<Piece>) { forall i | 0 <= i < |ps| :: ps[i].Char? }

  /** A code point escape is at least four letters longer than its character. */
  lemma {:induction false} LiteralIsLonger(ps: seq<Piece>)
    ensures NoCodeUnit(ps) ==> Literal(ps) == Combine(ps)
    ensures !NoCodeUnit(ps) ==> |Literal(ps)| > |Combine(ps)|
    ensures |Literal(ps)| >= |Combine(ps)|
    decreases |ps|
  {
    if ps != [] {
      LiteralIsLonger(ps[1..]);
      assert forall i | 1 <= i < |ps| :: ps[i] == ps[1..][i - 1];
      if |ps| >= 2 {
        LiteralIsLonger(ps[2..]);
        assert ps[1..][1..] == ps[2..];
      }
    }
  }

  lemma {:induction false} LiteralsAreCombined(pss: seq<seq<Piece>>)
    ensures Literals(pss) == Combined(pss) <==> forall ps | ps in pss :: NoCodeUnit(ps)
  {
    hide NoCodeUnit, Literal, Combine;
    if pss != [] {
      LiteralsAreCombined(pss[1..]);
      LiteralIsLonger(pss[0]);
      assert pss == [pss[0]] + pss[1..];
      assert Literals(pss)[0] == Literal(pss[0]) && Literals(pss)[1..] == Literals(pss[1..]);
      assert Combined(pss)[0] == Combine(pss[0]) && Combined(pss)[1..] == Combined(pss[1..]);
    }
  }

  /** Extraction finds what strict decoding does exactly when no value has an escape of a code point. */
  lemma {:induction false} DecodersAgreeExactly(s: string)
    requires StrictDecode(s).Some?
    ensures Outcomes(s) == OutcomesOfValues(StrictDecode(s).value) <==> forall ps | ps in StrictArray(s).value :: NoCodeUnit(ps)
  {
    StrictAgreesWithExtraction(s);
    var pss := StrictArray(s).value;
    hide StrictArray, Outcomes, NoCodeUnit, Literals, Combined;
    LiteralsAreCombined(pss);
    if OutcomesOfValues(Literals(pss)) == OutcomesOfValues(Combined(pss)) {
      SameOutcomesSameValues(Literals(pss), Combined(pss));
    }
  }

  lemma SameOutcomesSameValues(a: seq<string>, b: seq<string>)
    requires OutcomesOfValues(a) == OutcomesOfValues(b)
    ensures a == b
  {
    if a != [] && b != [] {
      assert OutcomesOfValues(a)[1..] == OutcomesOfValues(a[1..]);
      assert OutcomesOfValues(b)[1..] == OutcomesOfValues(b[1..]);
      assert OutcomesOfValues(a)[0] == OutcomesOfValues(b)[0];
      SameOutcomesSameValues(a[1..], b[1..]);
      assert a == [a[0]] + a[1..] && b == [b[0]] + b[1..];
    }
  }

  // ---------- decoding what was repaired ----------

  function Meanings(vs: seq<seq<Unit>>): seq<string> {
    if vs == [] then [] else [Meaning(vs[0])] + Meanings(vs[1..])
  }

  function TakeHex(us: seq<Unit>, k: nat): (r: Option<(string, seq<Unit>)>)
    ensures r.Some? ==> |r.value.0| == k && |r.value.1| == |us| - k
  {
    if k == 0 then Some(([], us))
    else if us == [] || us[0].Escaped? || !IsHex(us[0].c) then None
    else
      var (d, rest) :- TakeHex(us[1..], k - 1);
      Some(([us[0].c] + d, rest))
  }

  /** The pieces of a value's units, if all of them are JSON. */
  function Pieces(us: seq<Unit>): Option<seq<Piece>>
    decreases |us|
  {
    if us == [] then Some([])
    else if us[0] == Escaped('u') then
      var (d, rest) :- TakeHex(us[1..], 4);
      var ps :- Pieces(rest);
      Some([CodeUnit(d)] + ps)
    else if !Strict(us[0]) then None
    else
      var ps :- Pieces(us[1..]);
      Some([Char(if us[0].Raw? then us[0].c else Unescape(us[0].c))] + ps)
  }

  function AllPieces(vs: seq<seq<Unit>>): Option<seq<seq<Piece>>> {
    if vs == [] then Some([])
    else
      var ps :- Pieces(vs[0]);
      var pss :- AllPieces(vs[1..]);
      Some([ps] + pss)
  }

  lemma {:induction false} HexOfText(us: seq<Unit>, t: string, k: nat)
    requires AllPlain(us)
    ensures ReadHex(ValueText(us, t), k) ==
              match TakeHex(us, k) case Some((d, rest)) => Some((d, ValueText(rest, t))) case None => None
    ensures TakeHex(us, k).Some? ==> AllPlain(TakeHex(us, k).value.1)
  {
    if k > 0 && us != [] {
      assert ValueText(us, t)[|RenderUnit(us[0])|..] == ValueText(us[1..], t);
      HexOfText(us[1..], t, k - 1);
    }
  }

  /** A value is read strictly exactly when its units are JSON. */
  lemma {:induction false} StrictValueExactly(us: seq<Unit>, t: string)
    requires AllPlain(us)
    ensures StrictValue(ValueText(us, t)) == match Pieces(us) case Some(ps) => Some((ps, t)) case None => None
    decreases |us|
  {
    var s := ValueText(us, t);
    if us == [] {
      assert s[2..] == t;
    } else {
      assert s[|RenderUnit(us[0])|..] == ValueText(us[1..], t);
      if us[0] == Escaped('u') {
        HexOfText(us[1..], t, 4);
        var hex := TakeHex(us[1..], 4);
        hide ReadHex, TakeHex, ValueText;
        if hex.Some? { StrictValueExactly(hex.value.1, t); }
      } else {
        StrictValueExactly(us[1..], t);
      }
    }
  }

  lemma ObjectIsOpening(us: seq<Unit>, t: string)
    ensures ObjectString(us) + t == Opening("", "") + ValueText(us, t)
  {
    ValueTextIs(us, t);
    OpeningIs();
    hide Opening, ValueText, Render;
    assert ObjectString(us) + t == "{" + ("\"data\":\"" + (Render(us) + ("\"" + ("}" + t))));
    assert "\"" + ("}" + t) == CLOSE + t;
  }

  lemma OpeningIs()
    ensures Opening("", "") == "{" + "\"data\":\""
  {
  }

  lemma ObjectDecodes(us: seq<Unit>, t: string)
    requires AllPlain(us)
    ensures StrictObject(ObjectString(us) + t) == match Pieces(us) case Some(ps) => Some((ps, t)) case None => None
  {
    var o := Opening("", "");
    ObjectIsOpening(us, t);
    OpeningStarts("", "", ValueText(us, t));
    StrictValueExactly(us, t);
    var s := o + ValueText(us, t);
    assert s[..|o|] == o && s[|o|..] == ValueText(us, t);
    assert FORM_FEED !in o;
  }

  lemma ObjectOpens(us: seq<Unit>, t: string)
    ensures SkipJSONSpace(ObjectString(us) + t) == ObjectString(us) + t && (ObjectString(us) + t)[0] == '{'
  {
  }

  lemma {:induction false} RestDecodes(vs: seq<seq<Unit>>)
    requires GoodValues(vs)
    ensures StrictRest(Canonical(vs, "]")) == AllPieces(vs)
    decreases |vs|
  {
    if vs != [] {
      var t := Canonical(vs[1..], "]");
      RestDecodes(vs[1..]);
      ObjectDecodes(vs[0], t);
      ObjectOpens(vs[0], t);
      var x := ObjectString(vs[0]) + t;
      hide StrictObject, ObjectString;
      assert ("," + x)[1..] == x;
    } else {
      assert "]"[1..] == [];
    }
  }

  /** The canonical array decodes strictly exactly when its values are JSON, and then to what they mean. */
  lemma {:induction false} CanonicalDecodes(first: seq<Unit>, rest: seq<seq<Unit>>)
    requires AllPlain(first) && GoodValues(rest)
    ensures StrictArray(CanonicalArray(first, rest)) == AllPieces([first] + rest)
  {
    var t := Canonical(rest, "]");
    RestDecodes(rest);
    ObjectDecodes(first, t);
    FirstPieces(first, rest);
    hide *;
    ArrayOpens(first, rest);
  }

  /** An array from behind its bracket: its first object, and what follows that. */
  lemma ArrayOpens(first: seq<Unit>, rest: seq<seq<Unit>>)
    ensures var t := Canonical(rest, "]");
            StrictArray(CanonicalArray(first, rest)) ==
              match StrictObject(ObjectString(first) + t) case None => None case Some((v, t')) =>
                match StrictRest(t') case None => None case Some(vs) => Some([v] + vs)
  {
    var x := ObjectString(first) + Canonical(rest, "]");
    ObjectOpens(first, Canonical(rest, "]"));
    hide StrictObject, ObjectString, StrictRest, Canonical;
    assert ("[" + x)[1..] == x;
  }

  lemma FirstPieces(first: seq<Unit>, rest: seq<seq<Unit>>)
    ensures AllPieces([first] + rest) ==
              match Pieces(first) case None => None case Some(ps) =>
                match AllPieces(rest) case None => None case Some(pss) => Some([ps] + pss)
  {
    hide Pieces;
    assert ([first] + rest)[1..] == rest;
  }

  function Raws(d: string): seq<Unit> { if d == [] then [] else [Raw(d[0])] + Raws(d[1..]) }

  lemma {:induction false} RawsAreHex(d: string)
    requires forall c | c in d :: IsHex(c)
    ensures TakeHex(Raws(d), |d|) == Some((d, [])) && AllPlain(Raws(d))
  {
    if d != [] {
      var rest := Raws(d[1..]);
      assert forall c | c in d[1..] :: c in d;
      RawsAreHex(d[1..]);
      assert Raws(d) == [Raw(d[0])] + rest && Raws(d)[1..] == rest;
      assert IsHex(d[0]);
      hide Raws, IsHex;
      assert d == [d[0]] + d[1..];
    }
  }

  lemma PiecesOfEscape(us: seq<Unit>, d: FourDigits)
    requires us != [] && us[0] == Escaped('u') && TakeHex(us[1..], 4) == Some((d, []))
    ensures Pieces(us) == Some([CodeUnit(d)])
  {
    hide TakeHex;
    var none: seq<Unit> := [];
    assert Pieces(none) == Some([]);
    assert [CodeUnit(d)] + [] == [CodeUnit(d)];
  }

  /** The value of one escaped code point: strict decoding gives the character, extraction its letters. */
  lemma {:induction false} CodePointsDiffer(d: FourDigits)
    requires forall c | c in d :: IsHex(c)
    ensures var s := CanonicalArray([Escaped('u')] + Raws(d), []);
            StrictDecode(s) == Some([[CharOf(HexNumber(d))]]) && Outcomes(s) == [Item("u" + d)]
  {
    var us := [Escaped('u')] + Raws(d);
    RawsAreHex(d);
    assert us[1..] == Raws(d);
    var ps := [CodeUnit(d)];
    PiecesOfEscape(us, d);
    var none: seq<seq<Unit>> := [];
    assert [us] + none == [us] && [us][1..] == none && ps[1..] == [];
    assert AllPieces([us]) == Some([ps]) by {
      assert AllPieces(none) == Some([]);
      assert AllPieces([us][1..]) == Some([]);
      hide Pieces;
      assert [ps] + [] == [ps];
    }
    CanonicalDecodes(us, []);
    StrictAgreesWithExtraction(CanonicalArray(us, []));
    hide CanonicalArray, StrictArray, Outcomes, Pieces, TakeHex, HexNumber;
    OneLiteral(ps);
    assert [ps][1..] == [] && Combine(ps) == [CharOf(HexNumber(d))];
    assert Combined([ps]) == [Combine(ps)];
    assert Literal(ps) == "u" + d;
  }

  lemma OneLiteral(ps: seq<Piece>)
    ensures OutcomesOfValues(Literals([ps])) == [if Literal(ps) == "" then EmptyData else Item(Literal(ps))]
  {
    assert [ps][1..] == [] && [Literal(ps)][1..] == [];
  }

  /** The decoder: strict on the repaired text, extraction when that fails; None is the format error. */
  function DecodeJSONData(jsonData: string): Option<(seq<string>, seq<InvalidRecord>)> {
    var trimmed := PreprocessJSON(jsonData);
    match StrictDecode(trimmed)
    case Some(vs) => Some((vs, []))
    case None =>
      var os := Outcomes(trimmed);
      if Items(os) == [] && Invalid(os) == [] then None else Some((Items(os), Invalid(os)))
  }

  lemma {:induction false} NothingStarts(s: string)
    ensures Outcomes(s) == [] <==> NoStart(s)
  {
    hide StartLength, OutcomeAt;
    if s != [] { NothingStarts(s[1..]); }
  }

  lemma EveryOutcomeIsKept(os: seq<Outcome>)
    ensures Items(os) == [] && Invalid(os) == [] <==> os == []
  {
  }

  /** The decoder fails exactly when strict decoding does and no object starts anywhere in the repaired text. */
  lemma {:induction false} FormatErrorExactly(jsonData: string)
    ensures DecodeJSONData(jsonData) == None <==>
              StrictDecode(PreprocessJSON(jsonData)) == None && NoStart(PreprocessJSON(jsonData))
  {
    var trimmed := PreprocessJSON(jsonData);
    NothingStarts(trimmed);
    EveryOutcomeIsKept(Outcomes(trimmed));
    hide PreprocessJSON, StrictDecode, Outcomes, NoStart, Items, Invalid;
  }

  lemma ExtractionFindsMeanings(vs: seq<seq<Unit>>, t: string)
    requires GoodValues(vs) && Outcomes(t) == []
    ensures Outcomes(Canonical(vs, t)) == OutcomesOfValues(Meanings(vs))
    decreases |vs|
  {
    if vs != [] {
      var rest := Canonical(vs[1..], t);
      ExtractionFindsMeanings(vs[1..], t);
      hide Outcomes, ObjectString, Meaning, AllPlain, BraceFree;
      FirstOutcome(vs[0], rest, ',');
      assert ([Meaning(vs[0])] + Meanings(vs[1..]))[1..] == Meanings(vs[1..]);
    }
  }

  lemma OneValue(us: seq<Unit>)
    ensures OutcomesOfValues([Meaning(us)]) == [OutcomeOf(us)]
  {
    assert [Meaning(us)][1..] == [];
  }

  lemma FirstOutcome(us: seq<Unit>, t: string, c: char)
    requires AllPlain(us) && c != '{'
    ensures Outcomes([c] + (ObjectString(us) + t)) == OutcomesOfValues([Meaning(us)]) + Outcomes(t)
  {
    var x := ObjectString(us) + t;
    assert AllSpace("");
    assert ([c] + x)[1..] == x;
    CharIsSilent([c] + x);
    hide ObjectString, Opening, ValueText, Outcomes, AllPlain;
    OneValue(us);
    ObjectIsOpening(us, t);
    ObjectIsOneOutcome(TextExtraction.Object("", "", us), t);
  }

  /**
   The decoder on any sloppy rendering: when every value is a JSON string, all values are returned in order with
   their escapes decoded, and otherwise extraction's reading of them, with the empty ones as invalid records.
   */
  lemma SloppyArraysDecode(first: seq<Unit>, es: seq<Element>, tail: string, commas: nat, dots: nat)
    requires AllPlain(first) && BraceFree(first) && GoodElements(es) && IsTail(tail)
    ensures var vs := [first] + Values(es);
            var os := OutcomesOfValues(Meanings(vs));
            DecodeJSONData(SloppyArray(first, es, tail, commas) + Repeated('.', dots)) ==
              match AllPieces(vs) case Some(pss) => Some((Combined(pss), [])) case None => Some((Items(os), Invalid(os)))
  {
    var rest := Values(es);
    var c := CanonicalArray(first, rest);
    hide *;
    RepairIsCanonical(first, es, tail, commas, dots);
    ValuesAreGood(es);
    CanonicalOutcomes(first, rest);
    CanonicalDecodes(first, rest);
    DecodesOneWay(c, Meanings([first] + rest), SloppyArray(first, es, tail, commas) + Repeated('.', dots));
  }

  lemma MeaningsOf(first: seq<Unit>, rest: seq<seq<Unit>>)
    ensures Meanings([first] + rest) == [Meaning(first)] + Meanings(rest)
  {
    assert ([first] + rest)[1..] == rest;
  }

  lemma CanonicalOutcomes(first: seq<Unit>, rest: seq<seq<Unit>>)
    requires AllPlain(first) && GoodValues(rest)
    ensures Outcomes(CanonicalArray(first, rest)) == OutcomesOfValues(Meanings([first] + rest)) && Meanings([first] + rest) != []
  {
    hide Outcomes, ObjectString, Canonical, Meaning, Meanings, AllPlain, GoodValues;
    NothingIsSilent();
    assert "]"[1..] == [];
    CharIsSilent("]");
    ExtractionFindsMeanings(rest, "]");
    FirstOutcome(first, Canonical(rest, "]"), '[');
    MeaningsOf(first, rest);
    assert ([Meaning(first)] + Meanings(rest))[1..] == Meanings(rest);
    assert [Meaning(first)][1..] == [];
  }

  lemma DecodesOneWay(c: string, vs: seq<string>, s: string)
    requires PreprocessJSON(s) == c && vs != [] && Outcomes(c) == OutcomesOfValues(vs)
    ensures var os := OutcomesOfValues(vs);
            DecodeJSONData(s) ==
              match StrictArray(c) case Some(pss) => Some((Combined(pss), [])) case None => Some((Items(os), Invalid(os)))
  {
    hide StrictArray, PreprocessJSON, Outcomes, Combined;
  }
}
