/**
 * The citation grammar: scanning an answer into text and canonical markers, and
 * sanitising it. Regular-expression matching is spelled out as a function of the
 * remaining text, alternatives in their order.
 */
module Citations {
  import opened Common

  const CITE_OPEN := "{{cite:"
  const CLOSE := "}}"
  const UNSOURCED_TOKEN := "{{unsourced}}"
  const UUID_LENGTH := 36

  predicate Special(c: char) { c == '{' || c == '}' || c == '[' || c == ']' }

  predicate IsHex(c: char) { '0' <= c <= '9' || 'a' <= c <= 'f' || 'A' <= c <= 'F' }

  predicate IsUuid(id: string) {
    && |id| == UUID_LENGTH
    && forall i | 0 <= i < UUID_LENGTH :: if i == 8 || i == 13 || i == 18 || i == 23 then id[i] == '-' else IsHex(id[i])
  }

  /** The ids the answer may cite; none given means any well-formed cite is trusted. */
  predicate Supplied(ids: Option<set<string>>, id: string) { ids.None? || id in ids.value }

  datatype Token = CiteToken(id: string) | UnsourcedToken | Junk

  datatype Found = Found(token: Token, length: nat)

  function CiteText(id: string): string { CITE_OPEN + id + CLOSE }

  /** Length of the longest prefix without `a` and `b`. */
  function Run(t: string, a: char, b: char): (n: nat)
    ensures n <= |t|
  {
    if t == "" || t[0] == a || t[0] == b then 0 else 1 + Run(t[1..], a, b)
  }

  predicate OpensCite(t: string) {
    CITE_OPEN <= t && |t| >= 45 && IsUuid(t[7..43]) && t[43..45] == CLOSE
  }

  /** `open`, then characters other than `a` and `b`, then `close`. */
  function Enclosed(t: string, open: string, a: char, b: char, close: string): (n: Option<nat>)
    ensures n.Some? ==> |open| + |close| <= n.value <= |t|
  {
    if !(open <= t) then None
    else
      var n := |open| + Run(t[|open|..], a, b);
      if close <= t[n..] then Some(n + |close|) else None
  }

  lemma {:induction false} RunStops(body: string, rest: string, a: char, b: char)
    requires forall c | c in body :: c != a && c != b
    requires rest != "" && (rest[0] == a || rest[0] == b)
    ensures Run(body + rest, a, b) == |body|
  {
    if body == "" {
      assert body + rest == rest;
    } else {
      assert (body + rest)[1..] == body[1..] + rest && body[0] in body;
      assert forall c | c in body[1..] :: c in body;
      RunStops(body[1..], rest, a, b);
    }
  }

  /** Whenever the text starts with some enclosed body, that is what is found. */
  lemma EnclosedFindsBody(open: string, body: string, close: string, rest: string, a: char, b: char)
    requires forall c | c in body :: c != a && c != b
    requires close != "" && (close[0] == a || close[0] == b)
    ensures Enclosed(open + body + close + rest, open, a, b, close) == Some(|open| + |body| + |close|)
  {
    var t := open + body + close + rest;
    assert t[|open|..] == body + (close + rest);
    RunStops(body, close + rest, a, b);
    assert t[|open| + |body|..] == close + rest && open <= t;
  }

  /** The token at the front of `t`, if one of the alternatives matches there. */
  function Match(t: string): (r: Option<Found>)
    ensures r.Some? ==> 2 <= r.value.length <= |t|
  {
    if OpensCite(t) then Some(Found(CiteToken(t[7..43]), 45))
    else if UNSOURCED_TOKEN <= t then Some(Found(UnsourcedToken, |UNSOURCED_TOKEN|))
    else
      var double := Enclosed(t, "{{", '{', '}', CLOSE);
      var single := Enclosed(t, "{", '{', '}', "}");
      var bracket := Enclosed(t, "[", '[', ']', "]");
      if double.Some? then Some(Found(Junk, double.value))
      else if single.Some? then Some(Found(Junk, single.value))
      else if bracket.Some? then Some(Found(Junk, bracket.value))
      else None
  }

  predicate Accepted(ids: Option<set<string>>, token: Token) {
    token.UnsourcedToken? || (token.CiteToken? && Supplied(ids, token.id))
  }

  /** What the scanner relies on: a token is no longer than the text, and canonical tokens are literal. */
  predicate FitsAt(t: string, f: Found) {
    && 2 <= f.length <= |t|
    && match f.token
       case CiteToken(id) => IsUuid(id) && t[..f.length] == CiteText(id)
       case UnsourcedToken => t[..f.length] == UNSOURCED_TOKEN
       case Junk => true
  }

  type Tokenizer = string -> Option<Found>

  ghost predicate Faithful(m: Tokenizer) {
    forall t | m(t).Some? :: FitsAt(t, m(t).value)
  }

  predicate CanonicalToken(token: Token) { token.UnsourcedToken? || (token.CiteToken? && IsUuid(token.id)) }

  function TokenText(token: Token): string
    requires CanonicalToken(token)
  {
    if token.UnsourcedToken? then UNSOURCED_TOKEN else CiteText(token.id)
  }

  /** Canonical tokens are found wherever they stand, and plain characters start no token. */
  ghost predicate Recognizes(m: Tokenizer) {
    && (forall token, u | CanonicalToken(token) ::
         m(TokenText(token) + u) == Some(Found(token, |TokenText(token)|)))
    && (forall c, u | !Special(c) :: m([c] + u).None?)
  }

  lemma MatchIsFaithful()
    ensures Faithful(Match)
  {
    forall t | Match(t).Some? ensures FitsAt(t, Match(t).value) {
      if OpensCite(t) { assert t[..45] == t[..7] + t[7..43] + t[43..45]; }
    }
  }

  lemma MatchRecognizes()
    ensures Recognizes(Match)
  {
    forall token, u | CanonicalToken(token)
      ensures Match(TokenText(token) + u) == Some(Found(token, |TokenText(token)|)) {
      var t := TokenText(token) + u;
      if token.CiteToken? {
        assert t[7..43] == token.id && t[43..45] == CLOSE && t[..7] == CITE_OPEN;
      } else {
        assert t[..7] == "{{unsou" && CITE_OPEN[2] != t[2];
      }
    }
    forall c, u | !Special(c) ensures Match([c] + u).None? { assert ([c] + u)[0] == c; }
  }

  // --------------------------------------------------------------------- scanning

  datatype Segment = TextSegment(text: string) | Cite(memoryId: string) | Unsourced

  datatype Scanned = Scanned(segments: seq<Segment>, violations: nat)

  const START := Scanned([], 0)

  function Cleaned(text: string): string {
    if text == "" then "" else (if Special(text[0]) then "" else [text[0]]) + Cleaned(text[1..])
  }

  /** Orphan braces and brackets go; text that lost any is one violation. */
  function PushText(s: Scanned, text: string): Scanned {
    var cleaned := Cleaned(text);
    Scanned(if cleaned == "" then s.segments else s.segments + [TextSegment(cleaned)],
            if cleaned == text then s.violations else s.violations + 1)
  }

  function PushToken(s: Scanned, ids: Option<set<string>>, token: Token): Scanned {
    if !Accepted(ids, token) then s.(violations := s.violations + 1)
    else s.(segments := s.segments + [if token.UnsourcedToken? then Unsourced else Cite(token.id)])
  }

  /** The scan of what is left of an answer, with the text since the last token pending. */
  function ScanFrom(m: Tokenizer, s: Scanned, ids: Option<set<string>>, pending: string, t: string): Scanned
    requires Faithful(m)
    decreases |t|
  {
    if t == "" then PushText(s, pending)
    else match m(t)
      case None => ScanFrom(m, s, ids, pending + [t[0]], t[1..])
      case Some(f) =>
        assert FitsAt(t, f);
        ScanFrom(m, PushToken(PushText(s, pending), ids, f.token), ids, "", t[f.length..])
  }

  /** The next match at or after `from`: the regular expression's exec. */
  method Exec(m: Tokenizer, text: string, from: nat) returns (at: nat, found: Option<Found>)
    requires from <= |text|
    ensures from <= at <= |text| && forall k | from <= k < at :: m(text[k..]).None?
    ensures found.Some? ==> at < |text| && m(text[at..]) == found
    ensures found.None? ==> at == |text|
  {
    at := from;
    while at < |text|
      invariant from <= at <= |text| && forall k | from <= k < at :: m(text[k..]).None?
    {
      found := m(text[at..]);
      if found.Some? { return; }
      at := at + 1;
    }
    found := None;
  }

  lemma {:induction false} ScanSkips(m: Tokenizer, s: Scanned, ids: Option<set<string>>, text: string, last: nat,
                                     from: nat, at: nat)
    requires Faithful(m) && last <= from <= at <= |text| && forall k | from <= k < at :: m(text[k..]).None?
    ensures ScanFrom(m, s, ids, text[last..from], text[from..]) == ScanFrom(m, s, ids, text[last..at], text[at..])
    decreases at - from
  {
    if from < at {
      assert m(text[from..]).None?;
      assert text[from..][1..] == text[from + 1..] && text[last..from] + [text[from]] == text[last..from + 1];
      ScanSkips(m, s, ids, text, last, from + 1, at);
    }
  }

  method ScanAnswer(m: Tokenizer, text: string, ids: Option<set<string>>) returns (r: Scanned)
    requires Faithful(m)
    ensures r == ScanFrom(m, START, ids, "", text)
  {
    r := START;
    var last := 0;
    var at, found := Exec(m, text, 0);
    assert text[0..] == text;
    while found.Some?
      invariant last <= at <= |text|
      invariant found.Some? ==> at < |text| && m(text[at..]) == found
      invariant found.None? ==> at == |text|
      invariant forall k | last <= k < at :: m(text[k..]).None?
      invariant ScanFrom(m, r, ids, "", text[last..]) == ScanFrom(m, START, ids, "", text)
      decreases |text| - at, found.Some?
    {
      ScanSkips(m, r, ids, text, last, last, at);
      assert FitsAt(text[at..], found.value);
      var next := at + found.value.length;
      assert text[at..][found.value.length..] == text[next..];
      ghost var before := r;
      r := PushText(r, text[last..at]);
      r := PushToken(r, ids, found.value.token);
      assert ScanFrom(m, before, ids, text[last..at], text[at..]) == ScanFrom(m, r, ids, "", text[next..]);
      assert text[last..last] == "";
      last := next;
      at, found := Exec(m, text, last);
    }
    ScanSkips(m, r, ids, text, last, last, at);
    assert text[last..last] == "" && text[last..at] == text[last..] && text[at..] == "";
    r := PushText(r, text[last..]);
  }

  function Render(segments: seq<Segment>): string {
    if segments == [] then ""
    else
      var n := |segments| - 1;
      Render(segments[..n]) + match segments[n]
        case TextSegment(text) => text
        case Cite(id) => CiteText(id)
        case Unsourced => UNSOURCED_TOKEN
  }

  // ------------------------------------------------------------- what it all means

  /** Sanitising, character by character and token by token. */
  function Sanitized(m: Tokenizer, ids: Option<set<string>>, t: string): string
    requires Faithful(m)
    decreases |t|
  {
    if t == "" then ""
    else match m(t)
      case None => (if Special(t[0]) then "" else [t[0]]) + Sanitized(m, ids, t[1..])
      case Some(f) =>
        assert FitsAt(t, f);
        (if Accepted(ids, f.token) then t[..f.length] else "") + Sanitized(m, ids, t[f.length..])
  }

  /** Nothing to strip: only plain characters and accepted tokens. */
  predicate Clean(m: Tokenizer, ids: Option<set<string>>, t: string)
    requires Faithful(m)
    decreases |t|
  {
    t == "" ||
    match m(t)
    case None => !Special(t[0]) && Clean(m, ids, t[1..])
    case Some(f) => assert FitsAt(t, f); Accepted(ids, f.token) && Clean(m, ids, t[f.length..])
  }

  lemma {:induction false} CleanedAppend(a: string, b: string)
    ensures Cleaned(a + b) == Cleaned(a) + Cleaned(b)
    decreases |a|
  {
    if a == "" {
      assert a + b == b;
    } else {
      assert (a + b)[1..] == a[1..] + b;
      CleanedAppend(a[1..], b);
    }
  }

  lemma {:induction false} CleanedShrinks(t: string)
    ensures |Cleaned(t)| <= |t|
    ensures Cleaned(t) == t <==> forall c | c in t :: !Special(c)
    ensures forall c | c in Cleaned(t) :: !Special(c)
  {
    if t != "" {
      CleanedShrinks(t[1..]);
      assert t == [t[0]] + t[1..];
    }
  }

  /** Pending text that grows by one character, seen by the cleaner. */
  lemma CleanedSnoc(pending: string, c: char)
    ensures Cleaned(pending + [c]) == Cleaned(pending) + if Special(c) then "" else [c]
    ensures Cleaned(pending + [c]) == pending + [c] <==> Cleaned(pending) == pending && !Special(c)
  {
    CleanedAppend(pending, [c]);
    CleanedShrinks(pending);
    assert Cleaned([c]) == if Special(c) then "" else [c];
    var cleaned := Cleaned(pending);
    if cleaned + [c] == pending + [c] {
      assert (cleaned + [c])[..|cleaned|] == cleaned && (pending + [c])[..|pending|] == pending;
    }
  }

  lemma RenderPush(s: Scanned, pending: string)
    ensures Render(PushText(s, pending).segments) == Render(s.segments) + Cleaned(pending)
  {
    var cleaned := Cleaned(pending);
    if cleaned != "" { assert (s.segments + [TextSegment(cleaned)])[..|s.segments|] == s.segments; }
  }

  lemma RenderToken(s: Scanned, ids: Option<set<string>>, t: string, f: Found)
    requires FitsAt(t, f)
    ensures Render(PushToken(s, ids, f.token).segments) ==
      Render(s.segments) + (if Accepted(ids, f.token) then t[..f.length] else "")
  {
    if Accepted(ids, f.token) { assert PushToken(s, ids, f.token).segments[..|s.segments|] == s.segments; }
  }

  lemma Regroup(a: string, b: string, c: string, d: string)
    ensures a + (b + c) + d == a + b + (c + d)
    ensures a + b + c + "" + d == a + b + (c + d)
  {
  }

  lemma PlainRenders(m: Tokenizer, s: Scanned, ids: Option<set<string>>, pending: string, t: string)
    requires Faithful(m) && t != "" && m(t).None?
    requires Render(ScanFrom(m, s, ids, pending + [t[0]], t[1..]).segments)
          == Render(s.segments) + Cleaned(pending + [t[0]]) + Sanitized(m, ids, t[1..])
    ensures Render(ScanFrom(m, s, ids, pending, t).segments) == Render(s.segments) + Cleaned(pending)
      + Sanitized(m, ids, t)
  {
    CleanedSnoc(pending, t[0]);
    Regroup(Render(s.segments), Cleaned(pending), if Special(t[0]) then "" else [t[0]], Sanitized(m, ids, t[1..]));
  }

  lemma TokenRenders(m: Tokenizer, s: Scanned, ids: Option<set<string>>, pending: string, t: string, f: Found)
    requires Faithful(m) && t != "" && m(t) == Some(f) && FitsAt(t, f)
    requires
      var pushed := PushToken(PushText(s, pending), ids, f.token);
      Render(ScanFrom(m, pushed, ids, "", t[f.length..]).segments)
      == Render(pushed.segments) + "" + Sanitized(m, ids, t[f.length..])
    ensures Render(ScanFrom(m, s, ids, pending, t).segments) == Render(s.segments) + Cleaned(pending)
      + Sanitized(m, ids, t)
  {
    RenderPush(s, pending);
    RenderToken(PushText(s, pending), ids, t, f);
    var kept := if Accepted(ids, f.token) then t[..f.length] else "";
    Regroup(Render(s.segments), Cleaned(pending), kept, Sanitized(m, ids, t[f.length..]));
  }

  /** The segment list renders to the sanitised text. */
  lemma {:induction false} ScanRenders(m: Tokenizer, s: Scanned, ids: Option<set<string>>, pending: string, t: string)
    requires Faithful(m)
    ensures Render(ScanFrom(m, s, ids, pending, t).segments) == Render(s.segments) + Cleaned(pending)
      + Sanitized(m, ids, t)
    decreases |t|
  {
    if t == "" {
      RenderPush(s, pending);
    } else if m(t).None? {
      ScanRenders(m, s, ids, pending + [t[0]], t[1..]);
      PlainRenders(m, s, ids, pending, t);
    } else {
      var f := m(t).value;
      assert FitsAt(t, f);
      ScanRenders(m, PushToken(PushText(s, pending), ids, f.token), ids, "", t[f.length..]);
      TokenRenders(m, s, ids, pending, t, f);
    }
  }

  /** How many tokens are refused. */
  function Refused(m: Tokenizer, ids: Option<set<string>>, t: string): nat
    requires Faithful(m)
    decreases |t|
  {
    if t == "" then 0
    else match m(t)
      case None => Refused(m, ids, t[1..])
      case Some(f) =>
        assert FitsAt(t, f);
        (if Accepted(ids, f.token) then 0 else 1) + Refused(m, ids, t[f.length..])
  }

  /** How many stretches of text between tokens lose a character, given whether the one at hand has. */
  function Spoilt(m: Tokenizer, t: string, lost: bool): nat
    requires Faithful(m)
    decreases |t|
  {
    if t == "" then if lost then 1 else 0
    else match m(t)
      case None => Spoilt(m, t[1..], lost || Special(t[0]))
      case Some(f) =>
        assert FitsAt(t, f);
        (if lost then 1 else 0) + Spoilt(m, t[f.length..], false)
  }

  /** The scan counts each refused token once, and once each stretch of text that loses characters. */
  lemma {:induction false} ScanCounts(m: Tokenizer, s: Scanned, ids: Option<set<string>>, pending: string, t: string)
    requires Faithful(m)
    ensures ScanFrom(m, s, ids, pending, t).violations ==
      s.violations + Refused(m, ids, t) + Spoilt(m, t, Cleaned(pending) != pending)
    decreases |t|
  {
    if t != "" && m(t).None? {
      CleanedSnoc(pending, t[0]);
      ScanCounts(m, s, ids, pending + [t[0]], t[1..]);
    } else if t != "" {
      assert FitsAt(t, m(t).value);
      ScanCounts(m, PushToken(PushText(s, pending), ids, m(t).value.token), ids, "", t[m(t).value.length..]);
    }
  }

  /** Nothing is counted exactly when there is nothing to strip. */
  lemma {:induction false} CountsNothingWhenClean(m: Tokenizer, ids: Option<set<string>>, t: string, lost: bool)
    requires Faithful(m)
    ensures Refused(m, ids, t) + Spoilt(m, t, lost) == 0 <==> !lost && Clean(m, ids, t)
    decreases |t|
  {
    if t != "" && m(t).None? {
      CountsNothingWhenClean(m, ids, t[1..], lost || Special(t[0]));
    } else if t != "" {
      assert FitsAt(t, m(t).value);
      CountsNothingWhenClean(m, ids, t[m(t).value.length..], false);
    }
  }

  /** Zero violations exactly when the output is the input: stripping always shortens. */
  lemma {:induction false} CleanMeansUnchanged(m: Tokenizer, ids: Option<set<string>>, t: string)
    requires Faithful(m)
    ensures |Sanitized(m, ids, t)| <= |t|
    ensures |Sanitized(m, ids, t)| == |t| ==> Clean(m, ids, t)
    ensures Clean(m, ids, t) <==> Sanitized(m, ids, t) == t
    decreases |t|
  {
    if t != "" {
      var n := if m(t).None? then 1 else m(t).value.length;
      assert m(t).Some? ==> FitsAt(t, m(t).value);
      CleanMeansUnchanged(m, ids, t[n..]);
      assert t == t[..n] + t[n..] && t[..1] == [t[0]];
    }
  }

  /** What sanitising leaves is clean. */
  lemma {:induction false} SanitizedIsClean(m: Tokenizer, ids: Option<set<string>>, t: string)
    requires Faithful(m) && Recognizes(m)
    ensures Clean(m, ids, Sanitized(m, ids, t))
    decreases |t|
  {
    if t != "" {
      var n := if m(t).None? then 1 else m(t).value.length;
      assert m(t).Some? ==> FitsAt(t, m(t).value);
      SanitizedIsClean(m, ids, t[n..]);
      var rest := Sanitized(m, ids, t[n..]);
      if m(t).Some? && Accepted(ids, m(t).value.token) {
        var token := m(t).value.token;
        assert m(TokenText(token) + rest) == Some(Found(token, n));
        assert (TokenText(token) + rest)[n..] == rest;
      } else if m(t).None? && !Special(t[0]) {
        assert m([t[0]] + rest).None? && ([t[0]] + rest)[1..] == rest;
      } else {
        assert Sanitized(m, ids, t) == rest;
      }
    }
  }

  // ------------------------------------------------- what becomes of each part of a text

  predicate NoneOf(body: string, a: char, b: char) { forall c | c in body :: c != a && c != b }

  lemma PlainPassesOne(ids: Option<set<string>>, c: char, t: string)
    requires Faithful(Match) && !Special(c)
    ensures Sanitized(Match, ids, [c] + t) == [c] + Sanitized(Match, ids, t)
  {
    assert ([c] + t)[0] == c && ([c] + t)[1..] == t;
    assert Match([c] + t).None?;
  }

  lemma FrontGrows(a: string, b: string)
    requires a != ""
    ensures [a[0]] + (a[1..] + b) == a + b
  {
  }

  /** Plain characters pass. */
  lemma {:induction false} PlainPasses(ids: Option<set<string>>, pre: string, t: string)
    requires Faithful(Match) && NoneSpecial(pre)
    ensures Sanitized(Match, ids, pre + t) == pre + Sanitized(Match, ids, t)
    decreases |pre|
  {
    if pre == "" {
      assert pre + t == t;
    } else {
      PlainPasses(ids, pre[1..], t);
      PlainPassesOne(ids, pre[0], pre[1..] + t);
      FrontGrows(pre, t);
      FrontGrows(pre, Sanitized(Match, ids, t));
    }
  }

  /** Brackets go with whatever they enclose. */
  lemma BracketsGo(ids: Option<set<string>>, body: string, rest: string)
    requires Faithful(Match) && NoneOf(body, '[', ']')
    ensures Sanitized(Match, ids, "[" + body + "]" + rest) == Sanitized(Match, ids, rest)
  {
    var t := "[" + body + "]" + rest;
    EnclosedFindsBody("[", body, "]", rest, '[', ']');
    assert t[0] == '[' && Match(t) == Some(Found(Junk, |body| + 2));
    assert t[|body| + 2..] == rest;
  }

  /** So do single braces. */
  lemma BracesGo(ids: Option<set<string>>, body: string, rest: string)
    requires Faithful(Match) && NoneOf(body, '{', '}')
    ensures Sanitized(Match, ids, "{" + body + "}" + rest) == Sanitized(Match, ids, rest)
  {
    var t := "{" + body + "}" + rest;
    EnclosedFindsBody("{", body, "}", rest, '{', '}');
    assert t[0] == '{' && t[1] != '{' by { if body != "" { assert body[0] in body && t[1] == body[0]; } }
    assert Match(t) == Some(Found(Junk, |body| + 2));
    assert t[|body| + 2..] == rest;
  }

  /** The body of an accepted token: the marker, or a cite to a supplied id. */
  predicate Accepts(ids: Option<set<string>>, body: string) {
    || body == "unsourced"
    || (|body| == 41 && body[..5] == "cite:" && IsUuid(body[5..]) && (ids.Some? ==> body[5..] in ids.value))
  }

  /** A cite or the marker, written out in double braces. */
  predicate IsBody(body: string) {
    body == "unsourced" || (|body| == 41 && body[..5] == "cite:" && IsUuid(body[5..]))
  }

  lemma CiteWritten(prefix: string, id: string)
    requires prefix == "cite:" && IsUuid(id)
    ensures "{{" + (prefix + id) + "}}" == TokenText(CiteToken(id))
  {
    assert "{{" + (prefix + id) + "}}" == ("{{" + prefix) + id + "}}";
    assert "{{" + prefix == CITE_OPEN;
  }

  lemma CiteBraces(ids: Option<set<string>>, body: string, rest: string)
    requires Faithful(Match) && |body| == 41 && body[..5] == "cite:" && IsUuid(body[5..])
    ensures Sanitized(Match, ids, "{{" + body + "}}" + rest) ==
      (if ids.Some? ==> body[5..] in ids.value then "{{" + body + "}}" else "") + Sanitized(Match, ids, rest)
  {
    var prefix, id := body[..5], body[5..];
    CiteWritten(prefix, id);
    assert body == prefix + id;
    TokenPasses(ids, CiteToken(id), rest);
  }

  lemma MarkerBraces(ids: Option<set<string>>, rest: string)
    requires Faithful(Match)
    ensures Sanitized(Match, ids, "{{" + "unsourced" + "}}" + rest) ==
      "{{" + "unsourced" + "}}" + Sanitized(Match, ids, rest)
  {
    assert "{{" + "unsourced" + "}}" == TokenText(UnsourcedToken);
    TokenPasses(ids, UnsourcedToken, rest);
  }

  lemma JunkBraces(ids: Option<set<string>>, body: string, rest: string)
    requires Faithful(Match) && NoneOf(body, '{', '}') && !IsBody(body)
    ensures Sanitized(Match, ids, "{{" + body + "}}" + rest) == Sanitized(Match, ids, rest)
  {
    var t := "{{" + body + "}}" + rest;
    JunkBracesMatch(body, rest);
    assert t != "" && t[|body| + 4..] == rest;
  }

  /** Double braces stay, as they are, around an accepted body, and go with any other. */
  lemma DoubleBraces(ids: Option<set<string>>, body: string, rest: string)
    requires Faithful(Match) && NoneOf(body, '{', '}')
    ensures Sanitized(Match, ids, "{{" + body + "}}" + rest) ==
      (if Accepts(ids, body) then "{{" + body + "}}" else "") + Sanitized(Match, ids, rest)
  {
    if !IsBody(body) {
      JunkBraces(ids, body, rest);
    } else if body == "unsourced" {
      MarkerBraces(ids, rest);
    } else {
      CiteBraces(ids, body, rest);
    }
  }

  lemma TokenPasses(ids: Option<set<string>>, token: Token, rest: string)
    requires Faithful(Match) && CanonicalToken(token)
    ensures Sanitized(Match, ids, TokenText(token) + rest) ==
      (if Accepted(ids, token) then TokenText(token) else "") + Sanitized(Match, ids, rest)
  {
    MatchRecognizes();
    var t, n := TokenText(token) + rest, |TokenText(token)|;
    assert t[..n] == TokenText(token) && t[n..] == rest;
  }

  /** What stands at the front of a text in double braces. */
  lemma Braced(body: string, rest: string, i: nat)
    requires i < |body|
    ensures ("{{" + body + "}}" + rest)[i + 2] == body[i] && body[i] in body
  {
  }

  lemma MarkerBody(body: string, rest: string)
    requires NoneOf(body, '{', '}') && UNSOURCED_TOKEN <= "{{" + body + "}}" + rest
    ensures body == "unsourced"
  {
    var t, n := "{{" + body + "}}" + rest, |body|;
    assert forall i | 0 <= i < 13 :: t[i] == UNSOURCED_TOKEN[i];
    assert t[n + 2] == '}';
    if n > 9 { Braced(body, rest, 9); }
    assert n == 9;
    assert body == t[2..11];
  }

  lemma CiteBody(body: string, rest: string)
    requires NoneOf(body, '{', '}') && OpensCite("{{" + body + "}}" + rest)
    ensures |body| == 41 && body[..5] == "cite:" && IsUuid(body[5..])
  {
    var t, n := "{{" + body + "}}" + rest, |body|;
    assert t[n + 2] == '}' && t[43] == t[43..45][0] == '}';
    assert forall i | 0 <= i < 7 :: t[i] == CITE_OPEN[i];
    assert forall i | 0 <= i < 36 :: t[i + 7] == t[7..43][i];
    if n > 41 { Braced(body, rest, 41); }
    assert n == 41;
    assert body[..5] == t[2..7] && body[5..] == t[7..43];
  }

  lemma JunkBracesMatch(body: string, rest: string)
    requires NoneOf(body, '{', '}') && !IsBody(body)
    ensures Match("{{" + body + "}}" + rest) == Some(Found(Junk, |body| + 4))
  {
    EnclosedFindsBody("{{", body, "}}", rest, '{', '}');
    var t := "{{" + body + "}}" + rest;
    if UNSOURCED_TOKEN <= t { MarkerBody(body, rest); }
    if OpensCite(t) { CiteBody(body, rest); }
  }

  lemma OrphanGoes(ids: Option<set<string>>, c: char, rest: string)
    requires Faithful(Match) && (c == '}' || c == ']')
    ensures Sanitized(Match, ids, [c] + rest) == Sanitized(Match, ids, rest)
  {
    var t := [c] + rest;
    assert t[0] == c && t[1..] == rest;
    assert Match(t).None?;
  }

  /** An id is 8, 4, 4, 4 and 12 hexadecimal digits, joined by hyphens. */
  lemma UuidShape(id: string)
    ensures IsUuid(id) <==>
      && |id| == 36 && id[8] == id[13] == id[18] == id[23] == '-'
      && forall c | c in id[..8] + id[9..13] + id[14..18] + id[19..23] + id[24..] :: c in "0123456789abcdefABCDEF"
  {
    HexDigits();
    if |id| == 36 {
      var digits := id[..8] + id[9..13] + id[14..18] + id[19..23] + id[24..];
      if IsUuid(id) {
        forall k | 0 <= k < |digits| ensures IsHex(digits[k]) {
          var i :=
            if k < 8 then k else if k < 12 then k + 1 else if k < 16 then k + 2 else if k < 20 then k + 3 else k + 4;
          assert digits[k] == id[i];
        }
      }
      if forall c | c in digits :: IsHex(c) {
        forall i | 0 <= i < 36 && i != 8 && i != 13 && i != 18 && i != 23 ensures IsHex(id[i]) {
          var k :=
            if i < 8 then i else if i < 13 then i - 1 else if i < 18 then i - 2 else if i < 23 then i - 3 else i - 4;
          assert digits[k] == id[i];
        }
      }
    }
  }

  lemma HexDigits()
    ensures forall c: char :: IsHex(c) <==> c in "0123456789abcdefABCDEF"
  {
  }

  predicate NoneSpecial(text: string) { forall i | 0 <= i < |text| :: !Special(text[i]) }

  /** A part of the canonical form: text without braces or brackets, a cite to a supplied id, the marker. */
  predicate Canonical(ids: Option<set<string>>, s: Segment) {
    match s
    case TextSegment(text) => text != "" && forall c | c in text :: !Special(c)
    case Cite(id) => IsUuid(id) && Supplied(ids, id)
    case Unsourced => true
  }

  lemma {:induction false} SegmentsAreCanonical(m: Tokenizer, s: Scanned, ids: Option<set<string>>, pending: string,
      t: string)
    requires Faithful(m) && forall seg | seg in s.segments :: Canonical(ids, seg)
    ensures forall seg | seg in ScanFrom(m, s, ids, pending, t).segments :: Canonical(ids, seg)
    decreases |t|
  {
    CleanedShrinks(pending);
    if t != "" {
      match m(t)
      case None => SegmentsAreCanonical(m, s, ids, pending + [t[0]], t[1..]);
      case Some(f) =>
        assert FitsAt(t, f);
        SegmentsAreCanonical(m, PushToken(PushText(s, pending), ids, f.token), ids, "", t[f.length..]);
    }
  }

  // ------------------------------------------------------------------ the sanitiser

  /** The rendering of canonical segments alone. */
  ghost predicate IsCanonicalText(ids: Option<set<string>>, text: string) {
    exists segments :: text == Render(segments) && forall seg | seg in segments :: Canonical(ids, seg)
  }

  /**
   * Zero violations exactly when nothing changed. No brace or bracket survives outside
   * a canonical cite to a supplied id or the unsourced marker.
   */
  method SanitizeAnswer(text: string, ids: Option<set<string>>) returns (r: string, violations: nat)
    ensures Faithful(Match) && r == Sanitized(Match, ids, text)
    ensures violations == Refused(Match, ids, text) + Spoilt(Match, text, false)
    ensures violations == 0 <==> r == text
    ensures IsCanonicalText(ids, r)
  {
    MatchIsFaithful();
    var scanned := ScanAnswer(Match, text, ids);
    r, violations := Render(scanned.segments), scanned.violations;
    ScanRenders(Match, START, ids, "", text);
    ScanCounts(Match, START, ids, "", text);
    CountsNothingWhenClean(Match, ids, text, false);
    CleanMeansUnchanged(Match, ids, text);
    SegmentsAreCanonical(Match, START, ids, "", text);
  }

  /** A second pass finds nothing to do, whatever the answer was. */
  method SanitizeTwice(text: string, ids: Option<set<string>>) returns (once: string, twice: string, violations: nat)
    ensures Faithful(Match) && once == Sanitized(Match, ids, text)
    ensures twice == once && violations == 0
  {
    var first;
    once, first := SanitizeAnswer(text, ids);
    MatchRecognizes();
    SanitizedIsClean(Match, ids, text);
    CleanMeansUnchanged(Match, ids, once);
    twice, violations := SanitizeAnswer(once, ids);
  }
}
