/**
 The text payload scanner: recovering {"data":"..."} objects from malformed JSON arrays.

 The scanner looks for every object start and reads the string value behind it.  A value is
 described by its units, each a raw character or an escape; what the scanner accepts is exactly the
 rendering of a list of units followed by the two closing characters.
 */
module TextExtraction {
  import opened Options

  // ---------- string values ----------

  const BACKSPACE: char := 8 as char
  const FORM_FEED: char := 12 as char

  function Unescape(c: char): char {
    if c == 'b' then BACKSPACE else if c == 'f' then FORM_FEED else if c == 'n' then '\n'
    else if c == 'r' then '\r' else if c == 't' then '\t' else c
  }

  /** The value at the start of s, up to its closing quote and brace, and what follows them. */
  function ReadValue(s: string): (r: Option<(string, string)>)
    ensures r.Some? ==> |r.value.1| < |s|
  {
    if s == [] then None
    else if s[0] == '\\' then
      if |s| < 2 then None else
        var (v, t) :- ReadValue(s[2..]);
        Some(([Unescape(s[1])] + v, t))
    else if s[0] == '"' then
      if |s| >= 2 && s[1] == '}' then Some(([], s[2..])) else None
    else
      var (v, t) :- ReadValue(s[1..]);
      Some(([s[0]] + v, t))
  }

  /** A value whose first characters were read already. */
  function Joined(data: string, r: Option<(string, string)>): Option<(string, string)> {
    match r
    case None => None
    case Some((v, t)) => Some((data + v, t))
  }

  lemma JoinedMore(data: string, c: char, r: Option<(string, string)>)
    ensures Joined(data, Joined([c], r)) == Joined(data + [c], r)
  {
    if r.Some? { assert data + ([c] + r.value.0) == data + [c] + r.value.0; }
  }

  lemma JoinedNone(r: Option<(string, string)>)
    ensures Joined("", r) == r
  {
    if r.Some? { assert "" + r.value.0 == r.value.0; }
  }

  /** One step of the scan at an index. */
  lemma ValueUnfolds(raw: string, i: nat)
    requires i < |raw|
    ensures var here := ReadValue(raw[i..]);
            if raw[i] == '\\' then here == if i + 1 < |raw| then Joined([Unescape(raw[i + 1])], ReadValue(raw[i + 2..])) else None
            else if raw[i] == '"' then here == if i + 1 < |raw| && raw[i + 1] == '}' then Some(("", raw[i + 2..])) else None
            else here == Joined([raw[i]], ReadValue(raw[i + 1..]))
  {
    hide Unescape;
    assert raw[i..][1..] == raw[i + 1..];
    if i + 1 < |raw| { assert raw[i..][2..] == raw[i + 2..]; }
  }

  /** The scanner itself: nextIdx is -1 when the value is not closed by a quote and a brace. */
  method ReadJSONStringValue(raw: string, start: nat) returns (data: string, nextIdx: int)
    requires start <= |raw|
    ensures match ReadValue(raw[start..])
            case None => data == "" && nextIdx == -1
            case Some((v, t)) => data == v && start < nextIdx <= |raw| && raw[nextIdx..] == t
  {
    data := "";
    var i := start;
    ghost var whole := ReadValue(raw[start..]);
    JoinedNone(whole);
    while i < |raw|
      invariant start <= i <= |raw|
      invariant whole == Joined(data, ReadValue(raw[i..]))
    {
      ValueUnfolds(raw, i);
      hide ReadValue, Unescape;
      if raw[i] == '\\' {
        if i + 1 >= |raw| { return "", -1; }
        JoinedMore(data, Unescape(raw[i + 1]), ReadValue(raw[i + 2..]));
        data := data + [Unescape(raw[i + 1])];
        i := i + 2;
      } else if raw[i] == '"' {
        if i + 1 < |raw| && raw[i + 1] == '}' {
          assert data + "" == data;
          return data, i + 2;
        }
        return "", -1;
      } else {
        JoinedMore(data, raw[i], ReadValue(raw[i + 1..]));
        data := data + [raw[i]];
        i := i + 1;
      }
    }
    return "", -1;
  }

  // ---------- units ----------

  datatype Unit = Raw(c: char) | Escaped(c: char)

  predicate Plain(u: Unit) { u.Raw? ==> u.c != '"' && u.c != '\\' }

  predicate AllPlain(us: seq<Unit>) { us != [] ==> Plain(us[0]) && AllPlain(us[1..]) }

  function RenderUnit(u: Unit): string { if u.Raw? then [u.c] else ['\\', u.c] }

  function Render(us: seq<Unit>): string {
    if us == [] then [] else RenderUnit(us[0]) + Render(us[1..])
  }

  function Meaning(us: seq<Unit>): (v: string)
    ensures |v| == |us|
  {
    if us == [] then [] else [if us[0].Raw? then us[0].c else Unescape(us[0].c)] + Meaning(us[1..])
  }

  const CLOSE: string := "\"}"

  /** The text from the first character of a value to the end of the document. */
  function ValueText(us: seq<Unit>, t: string): (s: string)
    ensures |s| >= 2
  {
    if us == [] then CLOSE + t else RenderUnit(us[0]) + ValueText(us[1..], t)
  }

  lemma ValueTextIs(us: seq<Unit>, t: string)
    ensures ValueText(us, t) == Render(us) + (CLOSE + t)
  {
    if us == [] {
      assert [] + (CLOSE + t) == CLOSE + t;
    } else {
      ValueTextIs(us[1..], t);
      assert RenderUnit(us[0]) + (Render(us[1..]) + (CLOSE + t)) == RenderUnit(us[0]) + Render(us[1..]) + (CLOSE + t);
    }
  }

  lemma {:induction false} ReadComplete(us: seq<Unit>, t: string)
    requires AllPlain(us)
    ensures ReadValue(ValueText(us, t)) == Some((Meaning(us), t))
  {
    var s := ValueText(us, t);
    if us == [] {
      assert s[2..] == t;
    } else {
      ReadComplete(us[1..], t);
      assert s[|RenderUnit(us[0])|..] == ValueText(us[1..], t);
    }
  }

  lemma {:induction false} ReadSound(s: string) returns (us: seq<Unit>)
    requires ReadValue(s).Some?
    ensures AllPlain(us) && ReadValue(s).value.0 == Meaning(us) && s == ValueText(us, ReadValue(s).value.1)
  {
    if s[0] == '"' {
      us := [];
      assert s == CLOSE + s[2..];
    } else {
      var u := if s[0] == '\\' then Escaped(s[1]) else Raw(s[0]);
      var n := |RenderUnit(u)|;
      var rest := ReadSound(s[n..]);
      us := [u] + rest;
      assert us[0] == u && us[1..] == rest;
      assert s == RenderUnit(u) + s[n..];
    }
  }

  /** The scanner accepts exactly the renderings of unit lists, and returns what they mean. */
  lemma ValuesAreExactlyRenderings(s: string, v: string, t: string)
    ensures ReadValue(s) == Some((v, t)) <==>
              exists us :: AllPlain(us) && v == Meaning(us) && s == Render(us) + (CLOSE + t)
  {
    if ReadValue(s) == Some((v, t)) {
      var us := ReadSound(s);
      ValueTextIs(us, t);
    }
    forall us | AllPlain(us) && v == Meaning(us) && s == Render(us) + (CLOSE + t)
      ensures ReadValue(s) == Some((v, t))
    {
      ValueTextIs(us, t);
      ReadComplete(us, t);
    }
  }

  /** The character, by its number, that an escape in a value stands for. */
  lemma {:induction false} EscapesStandFor(c: char, s: string)
    ensures var r := ReadValue(s);
            match ReadValue(['\\', c] + s)
            case None => r == None
            case Some((v, t)) =>
              && r.Some? && t == r.value.1 && |v| == 1 + |r.value.0| && v[1..] == r.value.0
              && v[0] as int == (if c == 'b' then 8 else if c == 't' then 9 else if c == 'n' then 10
                                 else if c == 'f' then 12 else if c == 'r' then 13 else c as int)
  {
    assert (['\\', c] + s)[2..] == s;
  }

  // ---------- object starts ----------

  const NAME: string := "{\"data\""

  predicate IsSpace(c: char) { c == ' ' || c == '\t' || c == '\n' || c == '\r' || c == FORM_FEED }

  /** How many white-space characters s starts with. */
  function Spaces(s: string): (n: nat)
    ensures n <= |s| && (forall i | 0 <= i < n :: IsSpace(s[i])) && (n < |s| ==> !IsSpace(s[n]))
  {
    if s == [] || !IsSpace(s[0]) then 0 else 1 + Spaces(s[1..])
  }

  /** White space and a quote. */
  function AfterColon(s: string): (r: Option<nat>)
    ensures r.Some? ==> 1 <= r.value <= |s|
  {
    var k := Spaces(s);
    if k < |s| && s[k] == '"' then Some(k + 1) else None
  }

  /** White space and a colon, then white space and a quote. */
  function AfterName(s: string): (r: Option<nat>)
    ensures r.Some? ==> 2 <= r.value <= |s|
  {
    var k := Spaces(s);
    if !(k < |s| && s[k] == ':') then None else
      var n :- AfterColon(s[k + 1..]);
      Some(k + 1 + n)
  }

  /** The length of a match of the start pattern at the front of s. */
  function StartLength(s: string): (r: Option<nat>)
    ensures r.Some? ==> 9 <= r.value <= |s|
  {
    if !(NAME <= s) then None else
      var n :- AfterName(s[|NAME|..]);
      Some(|NAME| + n)
  }

  /** The leftmost non-overlapping matches from an index on. */
  function FindAll(s: string, from: nat): (ms: seq<(nat, nat)>)
    requires from <= |s|
    decreases |s| - from
  {
    if from == |s| then [] else
      match StartLength(s[from..])
      case None => FindAll(s, from + 1)
      case Some(n) => [(from, from + n)] + FindAll(s, from + n)
  }

  // ---------- extraction ----------

  datatype Outcome = Item(data: string) | Malformed(fragment: string) | EmptyData

  datatype InvalidRecord = InvalidRecord(rawData: string, reason: string)

  /** What becomes of the object that starts at the front of s. */
  function OutcomeAt(s: string): Outcome
    requires StartLength(s).Some?
  {
    match ReadValue(s[StartLength(s).value..])
    case None => Malformed(if |s| > 512 then s[..512] else s)
    case Some((v, _)) => if v == "" then EmptyData else Item(v)
  }

  /** What becomes of every object start in s. */
  function Outcomes(s: string): seq<Outcome> {
    if s == [] then []
    else (if StartLength(s).Some? then [OutcomeAt(s)] else []) + Outcomes(s[1..])
  }

  function Items(os: seq<Outcome>): seq<string> {
    if os == [] then [] else (if os[0].Item? then [os[0].data] else []) + Items(os[1..])
  }

  function InvalidOf(o: Outcome): seq<InvalidRecord> {
    match o
    case Item(_) => []
    case Malformed(f) => [InvalidRecord(f, "malformed JSON data object")]
    case EmptyData => [InvalidRecord("", "empty data field")]
  }

  function Invalid(os: seq<Outcome>): seq<InvalidRecord> {
    if os == [] then [] else InvalidOf(os[0]) + Invalid(os[1..])
  }

  lemma NothingExtracted(s: string)
    ensures Items([]) == [] && Invalid([]) == [] && AllStarts(s, []) && OutcomesOf(s, []) == []
  {
  }

  lemma SnocItems(os: seq<Outcome>, o: Outcome)
    ensures Items(os + [o]) == Items(os) + Items([o])
  {
    if os == [] {
      assert [] + [o] == [o];
    } else {
      assert (os + [o])[0] == os[0] && (os + [o])[1..] == os[1..] + [o];
      SnocItems(os[1..], o);
    }
  }

  lemma InvalidUnfolds(os: seq<Outcome>)
    requires os != []
    ensures Invalid(os) == InvalidOf(os[0]) + Invalid(os[1..])
  {
    hide InvalidOf;
  }

  lemma SnocTail<T>(s: seq<T>, x: T)
    requires s != []
    ensures (s + [x])[0] == s[0] && (s + [x])[1..] == s[1..] + [x]
  {
  }

  lemma JoinTwice<T>(a: seq<T>, b: seq<T>, c: seq<T>)
    ensures a + (b + c) == a + b + c
  {
  }

  lemma SnocInvalid(os: seq<Outcome>, o: Outcome)
    ensures Invalid(os + [o]) == Invalid(os) + Invalid([o])
  {
    if os == [] {
      assert [] + [o] == [o];
    } else {
      SnocTail(os, o);
      InvalidUnfolds(os);
      InvalidUnfolds(os + [o]);
      SnocInvalid(os[1..], o);
      hide *;
      JoinTwice(InvalidOf(os[0]), Invalid(os[1..]), Invalid([o]));
    }
  }

  method ExtractDataItems(jsonData: string) returns (items: seq<string>, invalid: seq<InvalidRecord>)
    ensures items == Items(Outcomes(jsonData)) && invalid == Invalid(Outcomes(jsonData))
  {
    hide StartLength, ReadValue, OutcomeAt, Items, Invalid, FindAll, Outcomes, OutcomesOf, AllStarts;
    var matches := FindAll(jsonData, 0);
    MatchesAreStarts(jsonData, 0);
    assert jsonData[0..] == jsonData && matches[0..] == matches;
    NothingExtracted(jsonData);
    items, invalid := [], [];
    ghost var done: seq<Outcome> := [];
    assert [] + Outcomes(jsonData) == Outcomes(jsonData);
    for k := 0 to |matches|
      invariant items == Items(done) && invalid == Invalid(done)
      invariant AllStarts(jsonData, matches[k..]) && Outcomes(jsonData) == done + OutcomesOf(jsonData, matches[k..])
    {
      var m := matches[k];
      NextOutcome(jsonData, matches[k..], m, matches[k + 1..]);
      ghost var o := OutcomeAt(jsonData[m.0..]);
      SnocItems(done, o);
      SnocInvalid(done, o);
      var item, bad := ExtractOne(jsonData, m.0, m.1);
      items := items + item;
      invalid := invalid + bad;
      ghost var rest := OutcomesOf(jsonData, matches[k + 1..]);
      assert done + ([o] + rest) == done + [o] + rest;
      done := done + [o];
    }
    assert matches[|matches|..] == [] && done + [] == done;
  }

  /** One turn of the loop over matches: what it adds to the two lists. */
  method ExtractOne(jsonData: string, start: nat, valueStart: nat) returns (item: seq<string>, bad: seq<InvalidRecord>)
    requires start <= valueStart <= |jsonData| && StartLength(jsonData[start..]) == Some(valueStart - start)
    ensures var o := OutcomeAt(jsonData[start..]); item == Items([o]) && bad == Invalid([o])
  {
    hide StartLength, ReadValue;
    assert jsonData[start..][valueStart - start..] == jsonData[valueStart..];
    var data, nextIdx := ReadJSONStringValue(jsonData, valueStart);
    if nextIdx == -1 {
      var fragment := jsonData[start..];
      if |fragment| > 512 { fragment := fragment[..512]; }
      return [], [InvalidRecord(fragment, "malformed JSON data object")];
    }
    if data == "" { return [], [InvalidRecord(data, "empty data field")]; }
    return [data], [];
  }

  /** Every pair is a start and the end of its match. */
  predicate AllStarts(s: string, ms: seq<(nat, nat)>) {
    ms != [] ==> ms[0].0 <= ms[0].1 <= |s| && StartLength(s[ms[0].0..]) == Some(ms[0].1 - ms[0].0) && AllStarts(s, ms[1..])
  }

  /** The outcomes of a list of matches. */
  function OutcomesOf(s: string, ms: seq<(nat, nat)>): seq<Outcome>
    requires AllStarts(s, ms)
  {
    if ms == [] then [] else [OutcomeAt(s[ms[0].0..])] + OutcomesOf(s, ms[1..])
  }

  lemma NextOutcome(s: string, ms: seq<(nat, nat)>, m: (nat, nat), rest: seq<(nat, nat)>)
    requires AllStarts(s, ms) && ms != [] && m == ms[0] && rest == ms[1..]
    ensures m.0 <= m.1 <= |s| && StartLength(s[m.0..]) == Some(m.1 - m.0) && AllStarts(s, rest)
    ensures OutcomesOf(s, ms) == [OutcomeAt(s[m.0..])] + OutcomesOf(s, rest)
  {
    hide StartLength, OutcomeAt;
  }

  /** A match holds an opening brace only at its front. */
  lemma OneBraceInMatch(s: string, i: nat)
    requires StartLength(s).Some? && 0 < i < StartLength(s).value
    ensures s[i] != '{'
  {
    var n := |NAME|;
    if i < n {
      assert s[i] == NAME[i];
    } else {
      NoBraceAfterName(s[n..], i - n);
    }
  }

  lemma NoBraceAfterName(s: string, i: nat)
    requires AfterName(s).Some? && i < AfterName(s).value
    ensures s[i] != '{'
  {
    var k := Spaces(s);
    if i > k { assert s[i] == s[k + 1..][i - (k + 1)]; }
  }

  lemma NoBraceNoStart(s: string)
    requires s == [] || s[0] != '{'
    ensures StartLength(s) == None
  {
    assert NAME[0] == '{';
  }

  /** Looking after every match for the next one finds every start. */
  lemma {:induction false} MatchesAreStarts(s: string, from: nat)
    requires from <= |s|
    ensures AllStarts(s, FindAll(s, from))
    ensures OutcomesOf(s, FindAll(s, from)) == Outcomes(s[from..])
    decreases |s| - from
  {
    hide StartLength, OutcomeAt;
    if from < |s| {
      assert s[from..][1..] == s[from + 1..];
      match StartLength(s[from..])
      case None => MatchesAreStarts(s, from + 1);
      case Some(n) =>
        MatchesAreStarts(s, from + n);
        SkipMatch(s, from, n);
    }
  }

  lemma CharIsSilent(s: string)
    requires s != [] && s[0] != '{'
    ensures Outcomes(s) == Outcomes(s[1..])
  {
    NoBraceNoStart(s);
  }

  /** Text without a brace is silent. */
  lemma PlainIsSilent(s: string, k: nat)
    requires k <= |s| && forall i | 0 <= i < k :: s[i] != '{'
    ensures Outcomes(s) == Outcomes(s[k..])
    decreases k
  {
    hide Outcomes;
    if k == 0 {
      assert s[0..] == s;
    } else {
      CharIsSilent(s);
      PlainIsSilent(s[1..], k - 1);
      assert s[1..][k - 1..] == s[k..];
    }
  }

  lemma SkipStart(u: string, n: nat)
    requires StartLength(u) == Some(n) && 1 <= n <= |u|
    ensures Outcomes(u[1..]) == Outcomes(u[n..])
  {
    hide *;
    forall i | 0 <= i < n - 1 ensures u[1..][i] != '{' {
      OneBraceInMatch(u, i + 1);
      assert u[1..][i] == u[i + 1];
    }
    PlainIsSilent(u[1..], n - 1);
    assert u[1..][n - 1..] == u[n..];
  }

  lemma SkipMatch(s: string, from: nat, n: nat)
    requires from <= |s| && StartLength(s[from..]) == Some(n) && n >= 1
    ensures Outcomes(s[from + 1..]) == Outcomes(s[from + n..])
  {
    var u := s[from..];
    hide *;
    assert u[1..] == s[from + 1..] && u[n..] == s[from + n..];
    SkipStart(u, n);
  }

  // ---------- documents ----------

  /** A text in which no object starts. */
  predicate NoStart(s: string) {
    s != [] ==> StartLength(s) == None && NoStart(s[1..])
  }

  /** What may follow a piece of text without joining it into an object start: nothing, or an opening brace. */
  predicate Opens(t: string) { t == [] || t[0] == '{' }

  lemma SpacesConcat(x: string, t: string)
    requires t == [] || !IsSpace(t[0])
    ensures Spaces(x + t) == Spaces(x)
  {
    if x == [] {
      assert x + t == t;
    } else {
      assert (x + t)[0] == x[0] && (x + t)[1..] == x[1..] + t;
      SpacesConcat(x[1..], t);
    }
  }

  lemma AfterColonConcat(x: string, t: string)
    requires Opens(t)
    ensures AfterColon(x + t) == AfterColon(x)
  {
    SpacesConcat(x, t);
  }

  lemma AfterNameConcat(x: string, t: string)
    requires Opens(t)
    ensures AfterName(x + t) == AfterName(x)
  {
    hide AfterColon;
    SpacesConcat(x, t);
    var k := Spaces(x);
    if k < |x| {
      assert (x + t)[k + 1..] == x[k + 1..] + t;
      AfterColonConcat(x[k + 1..], t);
    }
  }

  lemma StartEndsBeforeBrace(x: string, t: string)
    requires x != [] && Opens(t)
    ensures StartLength(x + t) == StartLength(x)
  {
    hide AfterName;
    var n, s := |NAME|, x + t;
    assert n <= |s| && |x| < n ==> s[|x|] != NAME[|x|];
    if |x| >= n {
      assert s[..n] == x[..n] && s[n..] == x[n..] + t;
      AfterNameConcat(x[n..], t);
    }
  }

  /** Text without a start contributes nothing. */
  lemma {:induction false} GapIsSilent(gap: string, t: string)
    requires NoStart(gap) && Opens(t)
    ensures Outcomes(gap + t) == Outcomes(t)
    decreases |gap|
  {
    if gap == [] {
      assert gap + t == t;
    } else {
      hide StartLength, OutcomeAt;
      StartEndsBeforeBrace(gap, t);
      assert (gap + t)[1..] == gap[1..] + t;
      GapIsSilent(gap[1..], t);
    }
  }

  /** The opening of an object, up to and with the quote before the value. */
  function Opening(ws1: string, ws2: string): string { NAME + (ws1 + (":" + (ws2 + "\""))) }

  predicate AllSpace(ws: string) { forall i | 0 <= i < |ws| :: IsSpace(ws[i]) }

  lemma SpacesAll(ws: string, t: string)
    requires AllSpace(ws) && t != [] && !IsSpace(t[0])
    ensures Spaces(ws + t) == |ws|
  {
    if ws == [] {
      assert ws + t == t;
    } else {
      assert (ws + t)[1..] == ws[1..] + t;
      SpacesAll(ws[1..], t);
    }
  }

  lemma AfterColonOpens(ws2: string, t: string)
    requires AllSpace(ws2)
    ensures AfterColon(ws2 + ("\"" + t)) == Some(|ws2| + 1)
  {
    SpacesAll(ws2, "\"" + t);
  }

  lemma AfterNameOpens(ws1: string, ws2: string, t: string)
    requires AllSpace(ws1) && AllSpace(ws2)
    ensures AfterName(ws1 + (":" + (ws2 + ("\"" + t)))) == Some(|ws1| + 1 + |ws2| + 1)
  {
    var s := ws1 + (":" + (ws2 + ("\"" + t)));
    hide AfterColon;
    SpacesAll(ws1, ":" + (ws2 + ("\"" + t)));
    assert s[|ws1| + 1..] == ws2 + ("\"" + t);
    AfterColonOpens(ws2, t);
  }

  lemma OpeningStarts(ws1: string, ws2: string, t: string)
    requires AllSpace(ws1) && AllSpace(ws2)
    ensures StartLength(Opening(ws1, ws2) + t) == Some(|Opening(ws1, ws2)|)
    ensures (Opening(ws1, ws2) + t)[|Opening(ws1, ws2)|..] == t
  {
    var s := Opening(ws1, ws2) + t;
    hide AfterName, AllSpace;
    assert s[..|NAME|] == NAME && s[|NAME|..] == ws1 + (":" + (ws2 + ("\"" + t)));
    AfterNameOpens(ws1, ws2, t);
  }

  predicate IsWhite(c: char) { c as int in {9, 10, 12, 13, 32} }

  /** The text starts with a brace, the quoted word data, a colon, and a quote, with white space around the colon only. */
  predicate StartsWith(s: string, ws1: string, ws2: string, t: string) {
    && (forall c | c in ws1 :: IsWhite(c)) && (forall c | c in ws2 :: IsWhite(c))
    && s == "{\"data\"" + (ws1 + (":" + (ws2 + ("\"" + t))))
  }

  lemma SplitAround(s: string, i: nat, mark: string)
    requires i < |s| && mark == [s[i]]
    ensures s == s[..i] + (mark + s[i + 1..])
  {
  }

  lemma SpacesAreWhite(s: string)
    ensures forall c | c in s[..Spaces(s)] :: IsWhite(c)
  {
  }

  lemma ColonSplits(after: string) returns (ws2: string, t: string)
    requires AfterColon(after).Some?
    ensures after == ws2 + ("\"" + t) && AfterColon(after).value == |ws2| + 1 && forall c | c in ws2 :: IsWhite(c)
  {
    var j := Spaces(after);
    SpacesAreWhite(after);
    ws2, t := after[..j], after[j + 1..];
    hide Spaces, IsWhite;
    SplitAround(after, j, "\"");
  }

  lemma ColonAfterName(rest: string)
    requires AfterName(rest).Some?
    ensures var i := Spaces(rest);
            i < |rest| && rest[i] == ':' && AfterColon(rest[i + 1..]).Some?
            && AfterName(rest).value == i + 1 + AfterColon(rest[i + 1..]).value
  {
    hide AfterColon, Spaces;
  }

  lemma NameSplits(rest: string) returns (ws1: string, ws2: string, t: string)
    requires AfterName(rest).Some?
    ensures rest == ws1 + (":" + (ws2 + ("\"" + t))) && AfterName(rest).value == |ws1| + |ws2| + 2
    ensures (forall c | c in ws1 :: IsWhite(c)) && forall c | c in ws2 :: IsWhite(c)
  {
    ColonAfterName(rest);
    hide *;
    var i := Spaces(rest);
    SpacesAreWhite(rest);
    ws1 := rest[..i];
    ws2, t := ColonSplits(rest[i + 1..]);
    SplitAround(rest, i, ":");
  }

  lemma NameIs()
    ensures NAME == "{\"data\"" && |NAME| == 7
  {
  }

  lemma StartSplits(s: string) returns (ws1: string, ws2: string, t: string)
    requires StartLength(s).Some?
    ensures StartsWith(s, ws1, ws2, t) && StartLength(s).value == 9 + |ws1| + |ws2|
  {
    NameIs();
    hide AfterName, IsWhite;
    ws1, ws2, t := NameSplits(s[7..]);
    assert s == NAME + s[7..];
  }

  lemma OpeningIsStart(s: string, ws1: string, ws2: string, t: string)
    requires StartsWith(s, ws1, ws2, t)
    ensures StartLength(s) == Some(9 + |ws1| + |ws2|)
  {
    NameIs();
    WhiteIsSpace(ws1);
    WhiteIsSpace(ws2);
    OpeningStarts(ws1, ws2, t);
    OpeningText(ws1, ws2, t);
    hide StartLength, AllSpace, IsWhite;
    assert |Opening(ws1, ws2)| == 9 + |ws1| + |ws2|;
  }

  lemma OpeningText(ws1: string, ws2: string, t: string)
    ensures Opening(ws1, ws2) + t == NAME + (ws1 + (":" + (ws2 + ("\"" + t))))
  {
  }

  /** An object starts exactly there. */
  lemma {:induction false} StartsAreExactly(s: string, n: nat)
    ensures StartLength(s) == Some(n) <==>
              exists ws1: string, ws2: string, t: string :: StartsWith(s, ws1, ws2, t) && n == 9 + |ws1| + |ws2|
  {
    hide StartLength, StartsWith;
    if StartLength(s) == Some(n) {
      var ws1, ws2, t := StartSplits(s);
    }
    forall ws1: string, ws2: string, t: string | StartsWith(s, ws1, ws2, t) && n == 9 + |ws1| + |ws2|
      ensures StartLength(s) == Some(n)
    {
      OpeningIsStart(s, ws1, ws2, t);
    }
  }

  lemma WhiteIsSpace(ws: string)
    requires forall c | c in ws :: IsWhite(c)
    ensures AllSpace(ws)
  {
    forall i | 0 <= i < |ws| ensures IsSpace(ws[i]) { assert ws[i] in ws; }
  }

  /** Past the opening of an object the scan goes on at its value. */
  lemma OpeningIsOneOutcome(ws1: string, ws2: string, t: string)
    requires AllSpace(ws1) && AllSpace(ws2)
    ensures var s := Opening(ws1, ws2) + t;
            StartLength(s).Some? && Outcomes(s) == [OutcomeAt(s)] + Outcomes(t)
  {
    var s := Opening(ws1, ws2) + t;
    var n := |Opening(ws1, ws2)|;
    OpeningStarts(ws1, ws2, t);
    hide StartLength, OutcomeAt, Opening;
    assert s[0..] == s;
    SkipMatch(s, 0, n);
  }

  lemma ValueNeverStarts(us: seq<Unit>, t: string)
    requires AllPlain(us)
    ensures StartLength(['{'] + ValueText(us, t)) == None
  {
    var s := ['{'] + ValueText(us, t);
    assert NAME[1] == '"' && NAME[2] == 'd';
    if us == [] {
      assert s[2] == '}';
    } else {
      assert s[1] == RenderUnit(us[0])[0] != '"';
    }
  }

  /** Nothing starts inside a well-formed value. */
  lemma {:induction false} ValueIsSilent(us: seq<Unit>, t: string)
    requires AllPlain(us)
    ensures Outcomes(ValueText(us, t)) == Outcomes(t)
  {
    var s := ValueText(us, t);
    hide StartLength, OutcomeAt, Outcomes;
    if us == [] {
      assert s[1..] == ['}'] + t && s[1..][1..] == t;
      CharIsSilent(s);
      CharIsSilent(s[1..]);
    } else {
      var c, rest := us[0].c, ValueText(us[1..], t);
      ValueIsSilent(us[1..], t);
      ValueNeverStarts(us[1..], t);
      UnitIsSilent(c, rest);
      if us[0].Escaped? {
        assert s == ['\\'] + ([c] + rest) && s[1..] == [c] + rest;
        CharIsSilent(s);
      }
    }
  }

  lemma UnitIsSilent(c: char, rest: string)
    requires c == '{' ==> StartLength([c] + rest) == None
    ensures Outcomes([c] + rest) == Outcomes(rest)
  {
    assert ([c] + rest)[1..] == rest;
    if c != '{' { NoBraceNoStart([c] + rest); }
  }

  // ---------- round trip ----------

  /** One object of a document, with the white space around its colon. */
  datatype Object = Object(ws1: string, ws2: string, units: seq<Unit>)

  predicate GoodObject(o: Object) { AllSpace(o.ws1) && AllSpace(o.ws2) && AllPlain(o.units) }

  function OutcomeOf(us: seq<Unit>): Outcome {
    if us == [] then EmptyData else Item(Meaning(us))
  }

  function ObjectText(o: Object, t: string): (s: string)
    ensures s != [] && s[0] == '{'
  {
    Opening(o.ws1, o.ws2) + ValueText(o.units, t)
  }

  /** A whole object is one outcome, and the scan goes on behind it. */
  lemma ObjectIsOneOutcome(o: Object, t: string)
    requires GoodObject(o)
    ensures Outcomes(ObjectText(o, t)) == [OutcomeOf(o.units)] + Outcomes(t)
  {
    var v := ValueText(o.units, t);
    OpeningIsOneOutcome(o.ws1, o.ws2, v);
    OpeningStarts(o.ws1, o.ws2, v);
    ReadComplete(o.units, t);
    ValueIsSilent(o.units, t);
  }

  /** Objects, each behind a gap, and a last gap. */
  datatype Document = Last(gap: string) | Then(gap: string, entry: Object, rest: Document)

  predicate GoodDocument(d: Document) {
    NoStart(d.gap) && (d.Then? ==> GoodObject(d.entry) && GoodDocument(d.rest))
  }

  function DocumentText(d: Document): string {
    match d
    case Last(gap) => gap
    case Then(gap, o, rest) => gap + ObjectText(o, DocumentText(rest))
  }

  function DocumentOutcomes(d: Document): seq<Outcome> {
    match d
    case Last(_) => []
    case Then(_, o, rest) => [OutcomeOf(o.units)] + DocumentOutcomes(rest)
  }

  /**
   Extraction returns exactly the printed values in order: one item per non-empty value, one invalid
   record per empty one, whatever stands between the objects.
   */
  lemma {:induction false} ExtractionRoundTrip(d: Document)
    requires GoodDocument(d)
    ensures Outcomes(DocumentText(d)) == DocumentOutcomes(d)
  {
    match d
    case Last(gap) =>
      GapIsSilent(gap, "");
      assert gap + "" == gap;
    case Then(gap, o, rest) =>
      ExtractionRoundTrip(rest);
      hide ObjectText, NoStart, GoodObject, Outcomes;
      GapIsSilent(gap, ObjectText(o, DocumentText(rest)));
      ObjectIsOneOutcome(o, DocumentText(rest));
  }

  /** One way to write a string: a backslash before each quote and each backslash. */
  function Escape(v: string): (us: seq<Unit>)
    ensures AllPlain(us) && Meaning(us) == v
  {
    if v == [] then []
    else [if v[0] == '"' || v[0] == '\\' then Escaped(v[0]) else Raw(v[0])] + Escape(v[1..])
  }

  function Printed(vs: seq<string>): Document {
    if vs == [] then Last("") else Then("", Object("", "", Escape(vs[0])), Printed(vs[1..]))
  }

  function NonEmpty(vs: seq<string>): (r: seq<string>)
    ensures |r| <= |vs|
  {
    if vs == [] then [] else (if |vs[0]| > 0 then [vs[0]] else []) + NonEmpty(vs[1..])
  }

  lemma {:induction false} PrintedRecords(vs: seq<string>)
    ensures var os := DocumentOutcomes(Printed(vs));
            && Items(os) == NonEmpty(vs)
            && Invalid(os) == seq(|vs| - |NonEmpty(vs)|, _ => InvalidRecord("", "empty data field"))
    decreases |vs|
  {
    if vs != [] {
      PrintedRecords(vs[1..]);
      var o, os := OutcomeOf(Escape(vs[0])), DocumentOutcomes(Printed(vs[1..]));
      assert DocumentOutcomes(Printed(vs)) == [o] + os;
      assert ([o] + os)[1..] == os;
      assert o == if vs[0] == "" then EmptyData else Item(vs[0]);
    }
  }

  /** Any list of strings can be printed so that extraction returns exactly that list. */
  lemma {:induction false} EveryListComesBack(vs: seq<string>)
    ensures GoodDocument(Printed(vs))
    ensures var os := Outcomes(DocumentText(Printed(vs)));
            && Items(os) == NonEmpty(vs)
            && Invalid(os) == seq(|vs| - |NonEmpty(vs)|, _ => InvalidRecord("", "empty data field"))
    ensures var os := Outcomes(DocumentText(Printed(vs)));
            |os| == |vs| && forall i | 0 <= i < |vs| :: os[i] == if vs[i] == "" then EmptyData else Item(vs[i])
    decreases |vs|
  {
    PrintedIsGood(vs);
    ExtractionRoundTrip(Printed(vs));
    PrintedOutcomes(vs);
    PrintedRecords(vs);
  }

  lemma PrintedIsGood(vs: seq<string>)
    ensures GoodDocument(Printed(vs))
  {
    assert NoStart("");
    if vs != [] { PrintedIsGood(vs[1..]); }
  }

  lemma {:induction false} PrintedOutcomes(vs: seq<string>)
    ensures var os := DocumentOutcomes(Printed(vs));
            |os| == |vs| && forall i | 0 <= i < |vs| :: os[i] == if vs[i] == "" then EmptyData else Item(vs[i])
    decreases |vs|
  {
    if vs != [] {
      PrintedOutcomes(vs[1..]);
      assert forall i | 1 <= i < |vs| :: vs[i] == vs[1..][i - 1];
    }
  }

  // ---------- broken objects ----------

  /** The ways a value can be broken: cut off, cut off behind a backslash, or closed by a quote that no brace follows. */
  datatype Damage = CutOff | CutInEscape | BadClose(c: char, junk: string)

  function DamageText(d: Damage): string {
    match d
    case CutOff => ""
    case CutInEscape => "\\"
    case BadClose(c, junk) => ['"', c] + junk
  }

  predicate IsDamage(d: Damage) { d.BadClose? ==> d.c != '}' }

  lemma UnclosedReads(us: seq<Unit>, t: string)
    requires AllPlain(us) && ReadValue(t) == None
    ensures ReadValue(Render(us) + t) == None
  {
    hide ReadValue;
    if us == [] {
      assert [] + t == t;
    } else {
      UnclosedReads(us[1..], t);
      assert Render(us) + t == RenderUnit(us[0]) + (Render(us[1..]) + t);
      UnclosedUnit(us[0], Render(us[1..]) + t);
    }
  }

  lemma UnclosedUnit(u: Unit, t: string)
    requires Plain(u) && ReadValue(t) == None
    ensures ReadValue(RenderUnit(u) + t) == None
  {
    assert (RenderUnit(u) + t)[|RenderUnit(u)|..] == t;
  }

  lemma {:induction false} BrokenValuesAreRejected(us: seq<Unit>, d: Damage, t: string)
    requires AllPlain(us) && IsDamage(d)
    requires t == [] || (|t| > 2 && t[0] == '{' && t[1] == '"' && t[2] != '}')
    ensures ReadValue(Render(us) + DamageText(d) + t) == None
  {
    DamageReads(d, t);
    hide *;
    UnclosedReads(us, DamageText(d) + t);
    assert Render(us) + DamageText(d) + t == Render(us) + (DamageText(d) + t);
  }

  lemma DamageReads(d: Damage, t: string)
    requires IsDamage(d) && (t == [] || (|t| > 2 && t[0] == '{' && t[1] == '"' && t[2] != '}'))
    ensures ReadValue(DamageText(d) + t) == None
  {
    var s := DamageText(d) + t;
    assert t != [] ==> ReadValue(t[1..]) == None;
    match d {
      case CutOff => assert s == t;
      case CutInEscape => if t != [] { assert s[2..] == t[1..]; }
      case BadClose(c, junk) =>
    }
  }

  lemma MalformedIsInvalid(f: string, rest: seq<Outcome>)
    ensures Items([Malformed(f)] + rest) == Items(rest)
    ensures Invalid([Malformed(f)] + rest) == [InvalidRecord(f, "malformed JSON data object")] + Invalid(rest)
  {
    assert ([Malformed(f)] + rest)[1..] == rest;
    assert [] + Items(rest) == Items(rest);
  }

  /** An object broken inside its value costs one invalid record, which holds at most 512 characters from its start on,
      and leaves what follows untouched. */
  lemma BrokenObjectCostsOneInvalid(ws1: string, ws2: string, us: seq<Unit>, d: Damage, t: string)
    requires AllSpace(ws1) && AllSpace(ws2) && AllPlain(us) && IsDamage(d)
    requires NoStart(Render(us) + DamageText(d)) && (t == [] || NAME <= t)
    ensures var s := Opening(ws1, ws2) + (Render(us) + DamageText(d) + t);
            && Items(Outcomes(s)) == Items(Outcomes(t))
            && Invalid(Outcomes(s)) ==
                 [InvalidRecord(if |s| > 512 then s[..512] else s, "malformed JSON data object")] + Invalid(Outcomes(t))
  {
    var x := Render(us) + DamageText(d);
    var o := Opening(ws1, ws2);
    var s := o + (x + t);
    if t != [] { assert t[0] == NAME[0] == '{' && t[1] == NAME[1] && t[2] == NAME[2]; }
    hide *;
    BrokenValuesAreRejected(us, d, t);
    OpeningIsOneOutcome(ws1, ws2, x + t);
    OpeningStarts(ws1, ws2, x + t);
    MayFollow(t);
    GapIsSilent(x, t);
    UnreadIsMalformed(s, |o|);
    MalformedIsInvalid(if |s| > 512 then s[..512] else s, Outcomes(t));
  }

  lemma MayFollow(t: string)
    requires t == [] || t[0] == '{'
    ensures Opens(t)
  {
  }

  lemma UnreadIsMalformed(s: string, n: nat)
    requires StartLength(s) == Some(n) && ReadValue(s[n..]) == None
    ensures OutcomeAt(s) == Malformed(if |s| > 512 then s[..512] else s)
  {
    hide StartLength, ReadValue;
  }

  // ---------- processing the items ----------

  datatype Processed<+R> = Good(record: R) | Bad(reason: string)

  function GoodRecords<R>(items: seq<string>, parse: string -> Processed<R>): seq<R> {
    if items == [] then []
    else (if items[0] != "" && parse(items[0]).Good? then [parse(items[0]).record] else []) + GoodRecords(items[1..], parse)
  }

  function BadItems<R>(items: seq<string>, parse: string -> Processed<R>): seq<InvalidRecord> {
    if items == [] then []
    else (if items[0] == "" then [InvalidRecord("", "empty data field")]
          else match parse(items[0])
               case Good(_) => []
               case Bad(reason) => [InvalidRecord(items[0], reason)]) + BadItems(items[1..], parse)
  }

  lemma NoItems<R>(parse: string -> Processed<R>)
    ensures GoodRecords([], parse) == [] && BadItems([], parse) == []
  {
  }

  lemma FirstItem<R>(items: seq<string>, parse: string -> Processed<R>)
    requires items != []
    ensures GoodRecords(items, parse) ==
              (if items[0] != "" && parse(items[0]).Good? then [parse(items[0]).record] else []) + GoodRecords(items[1..], parse)
    ensures BadItems(items, parse) ==
              (if items[0] == "" then [InvalidRecord("", "empty data field")]
               else match parse(items[0])
                    case Good(_) => []
                    case Bad(reason) => [InvalidRecord(items[0], reason)]) + BadItems(items[1..], parse)
  {
  }

  method ProcessDataItems<R>(items: seq<string>, parse: string -> Processed<R>)
      returns (processed: seq<R>, invalid: seq<InvalidRecord>)
    ensures processed == GoodRecords(items, parse) && invalid == BadItems(items, parse)
    ensures |processed| + |invalid| == |items|
  {
    processed, invalid := [], [];
    assert items[0..] == items;
    hide GoodRecords, BadItems;
    NoItems(parse);
    for k := 0 to |items|
      invariant GoodRecords(items, parse) == processed + GoodRecords(items[k..], parse)
      invariant BadItems(items, parse) == invalid + BadItems(items[k..], parse)
      invariant |processed| + |invalid| == k
    {
      var item := items[k];
      assert items[k..][0] == item && items[k..][1..] == items[k + 1..];
      FirstItem(items[k..], parse);
      if item == "" {
        invalid := invalid + [InvalidRecord(item, "empty data field")];
      } else {
        match parse(item) {
          case Good(record) => processed := processed + [record];
          case Bad(reason) => invalid := invalid + [InvalidRecord(item, reason)];
        }
      }
    }
  }
}
