/**
 * The robots.txt evaluator: a line parser that builds groups, and the choice of
 * the rule that decides a path.
 */
module Robots {
  import opened Common

  const ROBOTS_TOKEN := "cogetoresearch"

  datatype Rule = Rule(allow: bool, prefix: string)

  datatype Group = Group(agents: seq<string>, rules: seq<Rule>)

  /** What one line says; blank lines, comments and lines without a colon say nothing. */
  datatype Directive = Agent(name: string) | Access(rule: Rule) | Other

  // ------------------------------------------------------------------------ lines

  function Trim(s: string): string { TrimEnd(TrimStart(s)) }

  function TrimStart(s: string): string { if s != "" && IsSpace(s[0]) then TrimStart(s[1..]) else s }

  function TrimEnd(s: string): string { if s != "" && IsSpace(s[|s| - 1]) then TrimEnd(s[..|s| - 1]) else s }

  function LowerChar(c: char): char { if 'A' <= c <= 'Z' then c - 'A' + 'a' else c }

  function Lower(s: string): string { if s == "" then "" else [LowerChar(s[0])] + Lower(s[1..]) }

  predicate EndsLine(c: char) { c == '\n' || c == '\r' || c as int == 0x2028 || c as int == 0x2029 }

  /** From the first `#` after which no line terminator follows. */
  function StripComment(line: string): string {
    if line == "" then ""
    else if line[0] == '#' && forall c | c in line :: !EndsLine(c) then ""
    else [line[0]] + StripComment(line[1..])
  }

  function ColonAt(s: string): (n: nat)
    ensures n <= |s|
  {
    if s == "" || s[0] == ':' then 0 else 1 + ColonAt(s[1..])
  }

  function Directed(rawLine: string): Option<Directive> {
    var line := Trim(StripComment(rawLine));
    var colon := ColonAt(line);
    if line == "" || colon == |line| then None
    else
      var field, value := Lower(Trim(line[..colon])), Trim(line[colon + 1..]);
      if field == "user-agent" then Some(Agent(Lower(value)))
      else if field == "allow" || field == "disallow" then Some(Access(Rule(field == "allow", value)))
      else Some(Other)
  }

  /** Lines end at a line feed, with the carriage return before it. */
  function Lines(text: string): (r: seq<string>)
    ensures |r| > 0
  {
    if text == "" then [""]
    else if text[0] == '\n' then [""] + Lines(text[1..])
    else if |text| > 1 && text[0] == '\r' && text[1] == '\n' then [""] + Lines(text[2..])
    else
      var rest := Lines(text[1..]);
      [[text[0]] + rest[0]] + rest[1..]
  }

  /** `s` neither starts nor ends with white space. */
  predicate Tight(s: string) { s != "" ==> !IsSpace(s[0]) && !IsSpace(s[|s| - 1]) }

  lemma {:induction false} TrimStartSkips(pre: string, s: string)
    requires Blank(pre) && (s == "" || !IsSpace(s[0]))
    ensures TrimStart(pre + s) == s
    decreases |pre|
  {
    if pre == "" {
      assert pre + s == s;
    } else {
      assert pre[0] in pre && forall c | c in pre[1..] :: c in pre;
      assert (pre + s)[1..] == pre[1..] + s;
      TrimStartSkips(pre[1..], s);
    }
  }

  lemma {:induction false} TrimEndSkips(s: string, post: string)
    requires Blank(post) && (s == "" || !IsSpace(s[|s| - 1]))
    ensures TrimEnd(s + post) == s
    decreases |post|
  {
    if post == "" {
      assert s + post == s;
    } else {
      var n := |post| - 1;
      assert post[n] in post && forall c | c in post[..n] :: c in post;
      assert (s + post)[..|s| + n] == s + post[..n];
      TrimEndSkips(s, post[..n]);
    }
  }

  lemma {:induction false} TrimStartOfBlank(s: string)
    requires Blank(s)
    ensures TrimStart(s) == ""
    decreases |s|
  {
    if s != "" {
      assert s[0] in s && forall c | c in s[1..] :: c in s;
      TrimStartOfBlank(s[1..]);
    }
  }

  /** Trimming takes off exactly the white space around. */
  lemma TrimCore(pre: string, core: string, post: string)
    requires Blank(pre) && Blank(post) && Tight(core)
    ensures Trim(pre + core + post) == core
  {
    if core == "" {
      assert pre + core + post == pre + post && forall c | c in pre + post :: c in pre || c in post;
      TrimStartOfBlank(pre + post);
    } else {
      assert pre + core + post == pre + (core + post);
      TrimStartSkips(pre, core + post);
      TrimEndSkips(core, post);
    }
  }

  lemma {:induction false} ColonFound(field: string, rest: string)
    requires ':' !in field
    ensures ColonAt(field + ":" + rest) == |field|
    decreases |field|
  {
    if field == "" {
      assert field + ":" + rest == ":" + rest;
    } else {
      assert (field + ":" + rest)[1..] == field[1..] + ":" + rest && field[0] in field;
      ColonFound(field[1..], rest);
    }
  }

  lemma {:induction false} NoCommentStays(line: string)
    requires '#' !in line
    ensures StripComment(line) == line
    decreases |line|
  {
    if line != "" {
      assert line[0] in line && forall c | c in line[1..] :: c in line;
      NoCommentStays(line[1..]);
      assert [line[0]] + line[1..] == line;
    }
  }

  /** A comment runs from the first hash sign to the end of the line. */
  lemma {:induction false} CommentGoes(line: string, comment: string)
    requires '#' !in line && forall c | c in comment :: !EndsLine(c)
    ensures StripComment(line + "#" + comment) == line
    decreases |line|
  {
    var t := line + "#" + comment;
    if line == "" {
      assert t == "#" + comment;
    } else {
      assert line[0] in line && t[0] == line[0] && t[1..] == line[1..] + "#" + comment;
      CommentGoes(line[1..], comment);
      assert [line[0]] + line[1..] == line;
    }
  }

  /** One of the four line terminators comes after position `i`. */
  predicate Terminated(line: string, i: nat) {
    exists j | i < j < |line| ::
      line[j] == '\n' || line[j] == '\r' || line[j] as int == 8232 || line[j] as int == 8233
  }

  lemma TerminatedTail(line: string, i: nat)
    requires line != "" && i < |line| - 1
    ensures Terminated(line, i + 1) <==> Terminated(line[1..], i)
  {
    var tail := line[1..];
    if j :| i + 1 < j < |line| && EndsLine(line[j]) { assert EndsLine(tail[j - 1]); }
    if j :| i < j < |tail| && EndsLine(tail[j]) { assert EndsLine(line[j + 1]); }
  }

  lemma TerminatedFirst(line: string)
    requires line != "" && line[0] == '#'
    ensures Terminated(line, 0) <==> exists c | c in line :: EndsLine(c)
  {
    if c :| c in line && EndsLine(c) {
      var j :| 0 <= j < |line| && line[j] == c;
      assert 0 < j && EndsLine(line[j]);
    }
    if j :| 0 < j < |line| && EndsLine(line[j]) { assert line[j] in line; }
  }

  /** A hash sign starts a comment exactly when no line terminator comes after it. */
  lemma {:induction false} CommentsAreOpenEnded(line: string)
    ensures |StripComment(line)| <= |line|
    ensures StripComment(line) == line <==> forall i | 0 <= i < |line| && line[i] == '#' :: Terminated(line, i)
    decreases |line|
  {
    if line != "" {
      var tail := line[1..];
      CommentsAreOpenEnded(tail);
      if line[0] == '#' { TerminatedFirst(line); }
      forall i | 0 <= i < |tail| ensures tail[i] == line[i + 1] && (Terminated(line, i + 1) <==> Terminated(tail, i)) {
        TerminatedTail(line, i);
      }
      assert forall i | 0 < i < |line| :: line[i] == tail[i - 1] && (Terminated(line, i) <==> Terminated(tail, i - 1));
      assert line == [line[0]] + tail;
      assert ([line[0]] + StripComment(tail))[1..] == StripComment(tail);
    }
  }

  /** Letters are compared without regard to case, one by one. */
  lemma {:induction false} LowerSpec(s: string)
    ensures |Lower(s)| == |s|
    ensures forall i | 0 <= i < |s| :: Lower(s)[i] == if 'A' <= s[i] <= 'Z' then s[i] + (32 as char) else s[i]
  {
    if s != "" { LowerSpec(s[1..]); }
  }

  lemma LineTrims(pre: string, field: string, mid: string, gap: string, value: string, post: string)
    requires Blank(pre) && Blank(gap) && Blank(post) && Tight(field) && Tight(value) && field != ""
    ensures Trim(pre + field + mid + ":" + gap + value + post) ==
      field + mid + ":" + if value == "" then "" else gap + value
  {
    var line := pre + field + mid + ":" + gap + value + post;
    if value == "" {
      var core := field + mid + ":";
      assert line == pre + core + (gap + post) && core[0] == field[0] && core[|core| - 1] == ':';
      assert forall c | c in gap + post :: c in gap || c in post;
      TrimCore(pre, core, gap + post);
    } else {
      var core := field + mid + ":" + gap + value;
      assert line == pre + core + post && core[0] == field[0] && core[|core| - 1] == value[|value| - 1];
      TrimCore(pre, core, post);
    }
  }

  lemma LineHasNoComment(pre: string, field: string, mid: string, gap: string, value: string, post: string)
    requires Blank(pre) && Blank(mid) && Blank(gap) && Blank(post) && '#' !in field + value
    ensures StripComment(pre + field + mid + ":" + gap + value + post) == pre + field + mid + ":" + gap + value + post
  {
    var line := pre + field + mid + ":" + gap + value + post;
    forall c | c in line ensures c != '#' {
      assert c in pre || c in field + value || c in mid || c == ':' || c in gap || c in post;
    }
    NoCommentStays(line);
  }

  lemma FieldAndValue(field: string, mid: string, gap: string, value: string)
    requires Blank(mid) && Blank(gap) && Tight(field) && Tight(value) && ':' !in field
    ensures
      var t := field + mid + ":" + if value == "" then "" else gap + value;
      && ColonAt(t) == |field + mid| && Trim(t[..|field + mid|]) == field && Trim(t[|field + mid| + 1..]) == value
  {
    var rest := if value == "" then "" else gap + value;
    assert forall c | c in field + mid :: c in field || IsSpace(c);
    ColonFound(field + mid, rest);
    var t := field + mid + ":" + rest;
    assert t[..|field + mid|] == "" + field + mid && t[|field + mid| + 1..] == rest;
    TrimCore("", field, mid);
    if value != "" {
      assert rest == gap + value + "";
      TrimCore(gap, value, "");
    }
  }

  /**
   * A line `field: value`, with white space anywhere around the two, is read as its field
   * name says, in whatever case: an agent, an allow rule or a disallow rule of that value,
   * and anything else only ends a run of agent lines.
   */
  lemma LineIsRead(pre: string, field: string, mid: string, gap: string, value: string, post: string)
    requires Blank(pre) && Blank(mid) && Blank(gap) && Blank(post) && Tight(field) && Tight(value)
    requires field != "" && ':' !in field && '#' !in field + value
    ensures Directed(pre + field + mid + ":" + gap + value + post) == Some(
      if Lower(field) == "user-agent" then Agent(Lower(value))
      else if Lower(field) == "allow" then Access(Rule(true, value))
      else if Lower(field) == "disallow" then Access(Rule(false, value))
      else Other)
  {
    LineHasNoComment(pre, field, mid, gap, value, post);
    LineTrims(pre, field, mid, gap, value, post);
    FieldAndValue(field, mid, gap, value);
  }

  lemma {:induction false} NoColon(s: string)
    requires ':' !in s
    ensures ColonAt(s) == |s|
    decreases |s|
  {
    if s != "" {
      assert s[0] in s && forall c | c in s[1..] :: c in s;
      NoColon(s[1..]);
    }
  }

  lemma {:induction false} TrimKeepsOut(s: string, x: char)
    requires x !in s
    ensures x !in Trim(s)
  {
    TrimStartIsSuffix(s);
    TrimEndIsPrefix(TrimStart(s));
  }

  lemma {:induction false} TrimStartIsSuffix(s: string)
    ensures forall c | c in TrimStart(s) :: c in s
    decreases |s|
  {
    if s != "" && IsSpace(s[0]) {
      TrimStartIsSuffix(s[1..]);
      assert forall c | c in s[1..] :: c in s;
    }
  }

  lemma {:induction false} TrimEndIsPrefix(s: string)
    ensures forall c | c in TrimEnd(s) :: c in s
    decreases |s|
  {
    if s != "" && IsSpace(s[|s| - 1]) {
      TrimEndIsPrefix(s[..|s| - 1]);
      assert forall c | c in s[..|s| - 1] :: c in s;
    }
  }

  /** A line without a colon says nothing. */
  lemma LineWithoutColon(line: string)
    requires '#' !in line && ':' !in line
    ensures Directed(line) == None
  {
    NoCommentStays(line);
    TrimKeepsOut(line, ':');
    NoColon(Trim(line));
  }

  lemma {:induction false} LineAlone(a: string)
    requires '\n' !in a
    ensures Lines(a) == [a]
    decreases |a|
  {
    if a != "" {
      assert a[0] in a && forall c | c in a[1..] :: c in a;
      LineAlone(a[1..]);
      assert [a[0]] + a[1..] == a;
    }
  }

  lemma {:induction false} LineEnds(a: string, end: string, rest: string)
    requires '\n' !in a && (a == "" || a[|a| - 1] != '\r') && (end == "\n" || end == "\r\n")
    ensures Lines(a + end + rest) == [a] + Lines(rest)
    decreases |a|
  {
    if a == "" {
      assert a + end + rest == end + rest && (end + rest)[|end|..] == rest;
    } else {
      assert a[0] in a && forall c | c in a[1..] :: c in a;
      LineEnds(a[1..], end, rest);
      LinesStep(a + end + rest, a[1..] + end + rest);
      assert [a[0]] + a[1..] == a;
    }
  }

  /** A text is its lines: one without a line feed is one line, and a line feed ends a line with or without return. */
  lemma LinesSplit(a: string, rest: string)
    requires '\n' !in a && (a == "" || a[|a| - 1] != '\r')
    ensures Lines(a) == [a] && Lines(a + "\n" + rest) == [a] + Lines(rest)
    ensures Lines(a + "\r\n" + rest) == [a] + Lines(rest)
  {
    LineAlone(a);
    LineEnds(a, "\n", rest);
    LineEnds(a, "\r\n", rest);
  }

  lemma LinesStep(t: string, u: string)
    requires t != "" && u == t[1..] && t[0] != '\n' && (t[0] == '\r' ==> |t| == 1 || t[1] != '\n')
    ensures Lines(t) == [[t[0]] + Lines(u)[0]] + Lines(u)[1..]
  {
  }

  // ----------------------------------------------------------------------- groups

  /** The parser's state: the groups so far, the last one current, and what the last line was. */
  datatype Parse = Parse(groups: seq<Group>, lastWasAgent: bool)

  const START := Parse([], false)

  function WithLast(groups: seq<Group>, g: Group): seq<Group>
    requires groups != []
  {
    groups[..|groups| - 1] + [g]
  }

  function Step(p: Parse, d: Directive): Parse {
    match d
    case Agent(name) =>
      if p.groups == [] || !p.lastWasAgent then Parse(p.groups + [Group([name], [])], true)
      else
        var g := p.groups[|p.groups| - 1];
        Parse(WithLast(p.groups, g.(agents := g.agents + [name])), true)
    case Access(rule) =>
      if p.groups == [] then Parse([], false)
      else
        var g := p.groups[|p.groups| - 1];
        Parse(WithLast(p.groups, g.(rules := g.rules + [rule])), false)
    case Other => p.(lastWasAgent := false)
  }

  function Steps(p: Parse, ds: seq<Directive>): Parse
    decreases |ds|
  {
    if ds == [] then p else Steps(Step(p, ds[0]), ds[1..])
  }

  function Directives(lines: seq<string>): seq<Directive> {
    if lines == [] then []
    else
      var n := |lines| - 1;
      Directives(lines[..n]) + match Directed(lines[n]) case Some(d) => [d] case None => []
  }

  // ------------------------------------------------------------------- evaluation

  predicate Contains(s: string, sub: string) { sub <= s || (s != "" && Contains(s[1..], sub)) }

  predicate NamesUs(g: Group) { exists a | a in g.agents :: Contains(a, ROBOTS_TOKEN) }

  predicate Wildcard(g: Group) { "*" in g.agents }

  /** Our own groups when any names us, else the wildcard ones. */
  function Applicable(groups: seq<Group>): seq<Group> {
    var named := Select(groups, (g: Group) => NamesUs(g));
    if |named| > 0 then named else Select(groups, (g: Group) => Wildcard(g))
  }

  lemma {:induction false} ContainsSpec(s: string, sub: string)
    ensures Contains(s, sub) <==> exists pre, post :: s == pre + sub + post
    decreases |s|
  {
    if sub <= s { assert s == "" + sub + s[|sub|..]; }
    if s != "" {
      ContainsSpec(s[1..], sub);
      if pre, post :| s[1..] == pre + sub + post { assert s == (s[..1] + pre) + sub + post; }
      if pre, post :| s == pre + sub + post {
        if pre == "" { assert sub == s[..|sub|]; } else { assert s[1..] == pre[1..] + sub + post; }
      }
    } else if pre, post :| s == pre + sub + post {
      assert |s| == |pre| + |sub| + |post|;
    }
  }

  /** Some agent of the group has our token in it, wherever. */
  ghost predicate Addressed(g: Group) { exists a, pre, post :: a in g.agents && a == pre + "cogetoresearch" + post }

  /** The groups that count: those that name us if any does, and only otherwise those with an agent `*`. */
  lemma GroupsThatCount(groups: seq<Group>, g: Group)
    ensures g in Applicable(groups) <==>
      g in groups && if exists h | h in groups :: Addressed(h) then Addressed(g) else "*" in g.agents
  {
    forall h ensures NamesUs(h) <==> Addressed(h) {
      forall a | a in h.agents { ContainsSpec(a, ROBOTS_TOKEN); }
    }
    var named := Select(groups, (h: Group) => NamesUs(h));
    if h :| h in groups && Addressed(h) {
      assert h in named;
    } else {
      SelectNone(groups, (h: Group) => NamesUs(h));
    }
  }

  function RulesOf(groups: seq<Group>): seq<Rule> {
    if groups == [] then [] else RulesOf(groups[..|groups| - 1]) + groups[|groups| - 1].rules
  }

  predicate Matches(rule: Rule, path: string) { rule.prefix != "" && rule.prefix <= path }

  /** The running winner: a later rule takes over only with a strictly longer prefix. */
  function Better(winner: Option<Rule>, rule: Rule, path: string): Option<Rule> {
    if Matches(rule, path) && (winner.None? || |rule.prefix| > |winner.value.prefix|) then Some(rule) else winner
  }

  function Winner(rules: seq<Rule>, path: string): Option<Rule> {
    if rules == [] then None else Better(Winner(rules[..|rules| - 1], path), rules[|rules| - 1], path)
  }

  function Verdict(rules: seq<Rule>, path: string): bool {
    match Winner(rules, path) case Some(rule) => rule.allow case None => true
  }

  function GroupsVerdict(groups: seq<Group>, path: string): bool { Verdict(RulesOf(Applicable(groups)), path) }

  // ------------------------------------------------------------------- the method

  method ParseLine(groups: seq<Group>, lastWasAgent: bool, d: Directive)
      returns (groups': seq<Group>, lastWasAgent': bool)
    ensures Parse(groups', lastWasAgent') == Step(Parse(groups, lastWasAgent), d)
  {
    groups', lastWasAgent' := groups, false;
    match d {
      case Agent(name) =>
        if groups == [] || !lastWasAgent {
          groups' := groups + [Group([], [])];
          assert groups'[..|groups|] == groups && groups'[|groups|].agents + [name] == [name];
        }
        var current := groups'[|groups'| - 1];
        groups' := WithLast(groups', current.(agents := current.agents + [name]));
        lastWasAgent' := true;
      case Access(rule) =>
        if groups != [] {
          var current := groups[|groups| - 1];
          groups' := WithLast(groups, current.(rules := current.rules + [rule]));
        }
      case Other =>
    }
  }

  method ParseGroups(robotsTxt: string) returns (groups: seq<Group>)
    ensures groups == Steps(START, Directives(Lines(robotsTxt))).groups
  {
    var lines := Lines(robotsTxt);
    var lastWasAgent := false;
    groups := [];
    for i := 0 to |lines|
      invariant Parse(groups, lastWasAgent) == Steps(START, Directives(lines[..i]))
    {
      assert lines[..i + 1][..i] == lines[..i];
      var directive := Directed(lines[i]);
      StepsSnoc(START, Directives(lines[..i]), directive);
      if directive.Some? {
        groups, lastWasAgent := ParseLine(groups, lastWasAgent, directive.value);
      }
    }
    assert lines[..|lines|] == lines;
  }

  lemma {:induction false} StepsSnoc(p: Parse, ds: seq<Directive>, d: Option<Directive>)
    ensures Steps(p, ds + if d.Some? then [d.value] else []) == if d.Some? then Step(Steps(p, ds), d.value)
      else Steps(p, ds)
    decreases |ds|
  {
    var all := ds + if d.Some? then [d.value] else [];
    if ds == [] {
      if d.Some? { assert all[1..] == []; }
    } else {
      assert all[0] == ds[0] && all[1..] == ds[1..] + if d.Some? then [d.value] else [];
      StepsSnoc(Step(p, ds[0]), ds[1..], d);
    }
  }

  /** One group's rules against the running winner. */
  method EvaluateRules(ghost before: seq<Rule>, rules: seq<Rule>, path: string, winner0: Option<Rule>)
      returns (winner: Option<Rule>)
    requires winner0 == Winner(before, path)
    ensures winner == Winner(before + rules, path)
  {
    winner := winner0;
    assert before + rules[..0] == before;
    for j := 0 to |rules|
      invariant winner == Winner(before + rules[..j], path)
    {
      var rule := rules[j];
      WinnerSnoc(before, rules, path, j);
      if rule.prefix == "" { continue; }
      if !(rule.prefix <= path) { continue; }
      if winner.None? || |rule.prefix| > |winner.value.prefix| { winner := Some(rule); }
    }
    assert rules[..|rules|] == rules;
  }

  lemma WinnerSnoc(before: seq<Rule>, rules: seq<Rule>, path: string, j: nat)
    requires j < |rules|
    ensures Winner(before + rules[..j + 1], path) == Better(Winner(before + rules[..j], path), rules[j], path)
  {
    assert (before + rules[..j + 1])[..|before| + j] == before + rules[..j];
  }

  lemma RulesOfSnoc(groups: seq<Group>, i: nat)
    requires i < |groups|
    ensures RulesOf(groups[..i + 1]) == RulesOf(groups[..i]) + groups[i].rules
  {
    assert groups[..i + 1][..i] == groups[..i];
  }

  /** The whole evaluation; which rule decides is the business of WinnerIsEarliestLongest. */
  method RobotsAllows(robotsTxt: string, path: string) returns (allowed: bool)
    ensures allowed == GroupsVerdict(Steps(START, Directives(Lines(robotsTxt))).groups, path)
  {
    var groups := ParseGroups(robotsTxt);
    allowed := Evaluate(groups, path);
  }

  method Evaluate(groups: seq<Group>, path: string) returns (allowed: bool)
    ensures allowed == GroupsVerdict(groups, path)
  {
    var applicable := Applicable(groups);
    var winner: Option<Rule> := None;
    for i := 0 to |applicable|
      invariant winner == Winner(RulesOf(applicable[..i]), path)
    {
      RulesOfSnoc(applicable, i);
      winner := EvaluateRules(RulesOf(applicable[..i]), applicable[i].rules, path, winner);
    }
    assert applicable[..|applicable|] == applicable;
    allowed := if winner.Some? then winner.value.allow else true;
  }

  // ------------------------------------------------------------ what the verdict is

  /** Rule `i` matches, no match is longer, and no earlier match is as long. */
  predicate EarliestLongest(rules: seq<Rule>, path: string, i: nat)
    requires i < |rules|
  {
    && Matches(rules[i], path)
    && (forall j | 0 <= j < |rules| && Matches(rules[j], path) :: |rules[j].prefix| <= |rules[i].prefix|)
    && (forall j | 0 <= j < i && Matches(rules[j], path) :: |rules[j].prefix| < |rules[i].prefix|)
  }

  lemma EarliestLongestStays(rules: seq<Rule>, path: string, i: nat, rule: Rule)
    requires i < |rules| && EarliestLongest(rules, path, i)
    requires Matches(rule, path) ==> |rule.prefix| <= |rules[i].prefix|
    ensures EarliestLongest(rules + [rule], path, i)
  {
  }

  lemma {:induction false} WinnerIsSomeRule(rules: seq<Rule>, path: string)
    ensures match Winner(rules, path)
      case None => forall r | r in rules :: !Matches(r, path)
      case Some(rule) => exists i :: 0 <= i < |rules| && rules[i] == rule && EarliestLongest(rules, path, i)
    decreases |rules|
  {
    if rules != [] {
      var n := |rules| - 1;
      var before := Winner(rules[..n], path);
      WinnerIsSomeRule(rules[..n], path);
      assert rules == rules[..n] + [rules[n]];
      if before.Some? {
        var i :| 0 <= i < n && rules[..n][i] == before.value && EarliestLongest(rules[..n], path, i);
        if before == Winner(rules, path) {
          EarliestLongestStays(rules[..n], path, i, rules[n]);
          assert rules[i] == before.value;
        } else {
          assert EarliestLongest(rules, path, n);
        }
      } else if Matches(rules[n], path) {
        assert EarliestLongest(rules, path, n);
      }
    }
  }

  lemma EarliestLongestIsUnique(rules: seq<Rule>, path: string, i: nat, j: nat)
    requires i < |rules| && j < |rules| && EarliestLongest(rules, path, i) && EarliestLongest(rules, path, j)
    ensures i == j
  {
    assert !(i < j) && !(j < i);
  }

  /** The verdict is that of the earliest among the longest matches; without a match, allow. */
  lemma WinnerIsEarliestLongest(rules: seq<Rule>, path: string)
    ensures Winner(rules, path).None? <==> forall r | r in rules :: !Matches(r, path)
    ensures Winner(rules, path).Some? ==> exists i :: 0 <= i < |rules| && EarliestLongest(rules, path, i)
    ensures Winner(rules, path).None? ==> Verdict(rules, path)
    ensures forall i | 0 <= i < |rules| && EarliestLongest(rules, path, i) :: Verdict(rules, path) == rules[i].allow
  {
    WinnerIsSomeRule(rules, path);
    if Winner(rules, path).Some? {
      var k :| 0 <= k < |rules| && rules[k] == Winner(rules, path).value && EarliestLongest(rules, path, k);
      forall i | 0 <= i < |rules| && EarliestLongest(rules, path, i) ensures i == k {
        EarliestLongestIsUnique(rules, path, i, k);
      }
    }
  }

  // ---------------------------------------------------- when order does not matter

  function WithPrefix(rules: seq<Rule>, prefix: string): seq<Rule> { Select(rules, (r: Rule) => r.prefix == prefix) }

  lemma {:induction false} FirstWithPrefix(rules: seq<Rule>, i: nat)
    requires i < |rules| && forall j | 0 <= j < i :: rules[j].prefix != rules[i].prefix
    ensures WithPrefix(rules, rules[i].prefix) != [] && WithPrefix(rules, rules[i].prefix)[0] == rules[i]
    decreases |rules|
  {
    var n := |rules| - 1;
    if i < n {
      FirstWithPrefix(rules[..n], i);
    } else {
      SelectNone(rules[..n], (r: Rule) => r.prefix == rules[i].prefix);
    }
  }

  /** The deciding rule is the first one with the longest matching prefix. */
  lemma DecidedByPrefix(rules: seq<Rule>, path: string, i: nat)
    requires i < |rules| && EarliestLongest(rules, path, i)
    ensures WithPrefix(rules, rules[i].prefix) != []
    ensures Verdict(rules, path) == WithPrefix(rules, rules[i].prefix)[0].allow
  {
    WinnerIsEarliestLongest(rules, path);
    forall j | 0 <= j < i ensures rules[j].prefix != rules[i].prefix {
      assert Matches(rules[j], path) ==> |rules[j].prefix| < |rules[i].prefix|;
    }
    FirstWithPrefix(rules, i);
  }

  /** Two matching prefixes of one length are one prefix. */
  lemma LongestPrefixIsUnique(r: Rule, q: Rule, path: string)
    requires Matches(r, path) && Matches(q, path) && |r.prefix| == |q.prefix|
    ensures r.prefix == q.prefix
  {
    assert r.prefix == path[..|r.prefix|] && q.prefix == path[..|q.prefix|];
  }

  /**
   * Order matters only between equal prefixes: two rule lists that agree, prefix by
   * prefix, on which rules they hold and in what order give every path one verdict.
   */
  lemma OrderMattersWithinPrefixOnly(rules: seq<Rule>, other: seq<Rule>, path: string)
    requires forall p :: WithPrefix(rules, p) == WithPrefix(other, p)
    ensures Verdict(rules, path) == Verdict(other, path)
  {
    WinnerIsEarliestLongest(rules, path);
    WinnerIsEarliestLongest(other, path);
    forall r: Rule ensures r in rules <==> r in other {
      assert r in WithPrefix(rules, r.prefix) <==> r in WithPrefix(other, r.prefix);
    }
    if Winner(rules, path).Some? {
      var i :| 0 <= i < |rules| && EarliestLongest(rules, path, i);
      assert rules[i] in other;
      var j :| 0 <= j < |other| && EarliestLongest(other, path, j);
      assert other[j] in rules;
      LongestPrefixIsUnique(rules[i], other[j], path);
      DecidedByPrefix(rules, path, i);
      DecidedByPrefix(other, path, j);
    }
  }

  // ------------------------------------------------------------- the RFC's tie rule

  predicate Longest(rules: seq<Rule>, path: string, r: Rule) {
    r in rules && Matches(r, path) && forall q | q in rules && Matches(q, path) :: |q.prefix| <= |r.prefix|
  }

  /** Section 2.2.2 of RFC 9309: of equivalent rules the allow rule should be used. */
  predicate StandardVerdict(rules: seq<Rule>, path: string) {
    (forall r | r in rules :: !Matches(r, path)) || exists r | r in rules :: Longest(rules, path, r) && r.allow
  }

  /**
   * The evaluator departs from the RFC exactly when a disallow rule precedes an allow
   * rule with the same, longest matching prefix; there it forbids what the RFC allows.
   */
  lemma TieRuleDiffers(rules: seq<Rule>, path: string)
    ensures Verdict(rules, path) != StandardVerdict(rules, path) <==>
      exists i, j :: 0 <= i < j < |rules| && EarliestLongest(rules, path, i) && !rules[i].allow
                     && rules[j].allow && rules[j].prefix == rules[i].prefix
    ensures Verdict(rules, path) ==> StandardVerdict(rules, path)
  {
    WinnerIsEarliestLongest(rules, path);
    if Winner(rules, path).Some? {
      var i :| 0 <= i < |rules| && EarliestLongest(rules, path, i);
      assert Longest(rules, path, rules[i]);
      if StandardVerdict(rules, path) && !rules[i].allow {
        var r :| r in rules && Longest(rules, path, r) && r.allow;
        var j :| 0 <= j < |rules| && rules[j] == r;
        LongestPrefixIsUnique(r, rules[i], path);
        assert j != i && !(j < i);
      }
      forall k, l | 0 <= k < l < |rules| && EarliestLongest(rules, path, k) && !rules[k].allow
                    && rules[l].allow && rules[l].prefix == rules[k].prefix
        ensures !Verdict(rules, path) && StandardVerdict(rules, path)
      {
        assert Longest(rules, path, rules[l]);
      }
    }
  }

  // ------------------------------------------------------------- splitting a group

  /** Group `k` cut in two after its first `n` rules, both halves for the same agents. */
  function Split(groups: seq<Group>, k: nat, n: nat): seq<Group>
    requires k < |groups| && n <= |groups[k].rules|
  {
    groups[..k] + [Group(groups[k].agents, groups[k].rules[..n]), Group(groups[k].agents, groups[k].rules[n..])]
      + groups[k + 1..]
  }

  lemma {:induction false} RulesOfAppend(a: seq<Group>, b: seq<Group>)
    ensures RulesOf(a + b) == RulesOf(a) + RulesOf(b)
    decreases |b|
  {
    if b == [] {
      assert a + b == a;
    } else {
      var n := |b| - 1;
      assert (a + b)[..|a| + n] == a + b[..n];
      RulesOfAppend(a, b[..n]);
    }
  }

  lemma SelectPair(g: Group, h: Group, f: Group -> bool)
    ensures Select([g], f) == if f(g) then [g] else []
    ensures Select([g, h], f) == (if f(g) then [g] else []) + if f(h) then [h] else []
  {
    assert [g, h][..1] == [g] && [g][..0] == [];
  }

  lemma RulesOfPair(g: Group, h: Group)
    ensures RulesOf([g]) == g.rules && RulesOf([g, h]) == g.rules + h.rules
  {
    assert [g, h][..1] == [g] && [g][..0] == [];
  }

  lemma SelectMiddle(pre: seq<Group>, mid: seq<Group>, post: seq<Group>, f: Group -> bool)
    ensures RulesOf(Select(pre + mid + post, f)) == RulesOf(Select(pre, f)) + RulesOf(Select(mid, f))
      + RulesOf(Select(post, f))
    ensures Select(pre + mid + post, f) == Select(pre, f) + Select(mid, f) + Select(post, f)
  {
    SelectAppend(pre + mid, post, f);
    SelectAppend(pre, mid, f);
    RulesOfAppend(Select(pre, f) + Select(mid, f), Select(post, f));
    RulesOfAppend(Select(pre, f), Select(mid, f));
  }

  lemma HalvesKeepRules(g: Group, n: nat, f: Group -> bool)
    requires n <= |g.rules| && forall h: Group | h.agents == g.agents :: f(h) == f(g)
    ensures
      var halves := [Group(g.agents, g.rules[..n]), Group(g.agents, g.rules[n..])];
      && RulesOf(Select(halves, f)) == RulesOf(Select([g], f)) && (Select(halves, f) == [] <==> Select([g], f) == [])
  {
    var g1, g2 := Group(g.agents, g.rules[..n]), Group(g.agents, g.rules[n..]);
    SelectPair(g, g, f);
    SelectPair(g1, g2, f);
    RulesOfPair(g, g);
    RulesOfPair(g1, g2);
    assert g1.rules + g2.rules == g.rules;
    assert [g1] + [g2] == [g1, g2];
  }

  /** For any choice of groups by their agents alone, the chosen rules are the same. */
  lemma SplitKeepsRules(groups: seq<Group>, k: nat, n: nat, f: Group -> bool)
    requires k < |groups| && n <= |groups[k].rules|
    requires forall g: Group, h: Group | g.agents == h.agents :: f(g) == f(h)
    ensures RulesOf(Select(Split(groups, k, n), f)) == RulesOf(Select(groups, f))
    ensures Select(Split(groups, k, n), f) == [] <==> Select(groups, f) == []
  {
    var g := groups[k];
    var halves := [Group(g.agents, g.rules[..n]), Group(g.agents, g.rules[n..])];
    assert groups == groups[..k] + [g] + groups[k + 1..];
    SelectMiddle(groups[..k], [g], groups[k + 1..], f);
    SelectMiddle(groups[..k], halves, groups[k + 1..], f);
    HalvesKeepRules(g, n, f);
  }

  /** Splitting a group, or merging two adjacent groups of the same agents, changes no verdict. */
  lemma SplitKeepsVerdict(groups: seq<Group>, k: nat, n: nat, path: string)
    requires k < |groups| && n <= |groups[k].rules|
    ensures GroupsVerdict(Split(groups, k, n), path) == GroupsVerdict(groups, path)
  {
    SplitKeepsRules(groups, k, n, (g: Group) => NamesUs(g));
    SplitKeepsRules(groups, k, n, (g: Group) => Wildcard(g));
  }

  /** The parse that met the agent line again is the other parse with its group `k` cut after `n` rules. */
  predicate SplitParse(p: Parse, q: Parse, k: nat, n: nat) {
    && k < |p.groups| && n <= |p.groups[k].rules| && q.groups == Split(p.groups, k, n)
    && p.lastWasAgent == q.lastWasAgent && (p.lastWasAgent ==> k < |p.groups| - 1)
  }

  lemma StepKeepsSplit(p: Parse, q: Parse, k: nat, n: nat, d: Directive)
    requires SplitParse(p, q, k, n)
    ensures SplitParse(Step(p, d), Step(q, d), k, n)
  {
    var p', q' := Step(p, d), Step(q, d);
    assert q'.groups == Split(p'.groups, k, n) by {
      if d.Access? && k == |p.groups| - 1 {
        var g := p.groups[k];
        assert p'.groups[k].rules[..n] == g.rules[..n] && p'.groups[k].rules[n..] == g.rules[n..] + [d.rule];
      }
    }
  }

  lemma {:induction false} StepsKeepSplit(p: Parse, q: Parse, k: nat, n: nat, ds: seq<Directive>)
    requires SplitParse(p, q, k, n)
    ensures SplitParse(Steps(p, ds), Steps(q, ds), k, n)
    decreases |ds|
  {
    if ds != [] {
      StepKeepsSplit(p, q, k, n, ds[0]);
      StepsKeepSplit(Step(p, ds[0]), Step(q, ds[0]), k, n, ds[1..]);
    }
  }

  function AgentLines(names: seq<string>): (r: seq<Directive>)
    ensures |r| == |names|
  {
    if names == [] then [] else [Agent(names[0])] + AgentLines(names[1..])
  }

  /** The parse in which the last group has `names` besides. */
  function Joined(p: Parse, names: seq<string>): Parse
    requires p.groups != []
  {
    var g := p.groups[|p.groups| - 1];
    Parse(WithLast(p.groups, g.(agents := g.agents + names)), true)
  }

  lemma JoinedStep(p: Parse, name: string, rest: seq<string>)
    requires p.groups != [] && p.lastWasAgent
    ensures Joined(Step(p, Agent(name)), rest) == Joined(p, [name] + rest)
  {
    var q, g := Step(p, Agent(name)), p.groups[|p.groups| - 1];
    assert g.agents + [name] + rest == g.agents + ([name] + rest);
    assert q.groups[..|q.groups| - 1] == p.groups[..|p.groups| - 1];
  }

  /** After an agent line, further ones join its group. */
  lemma {:induction false} AgentLinesJoin(p: Parse, names: seq<string>)
    requires p.groups != [] && p.lastWasAgent
    ensures Steps(p, AgentLines(names)) == Joined(p, names)
    decreases |names|
  {
    if names == [] {
      var g := p.groups[|p.groups| - 1];
      assert g.agents + names == g.agents && WithLast(p.groups, g) == p.groups;
    } else {
      assert AgentLines(names)[1..] == AgentLines(names[1..]);
      AgentLinesJoin(Step(p, Agent(names[0])), names[1..]);
      JoinedStep(p, names[0], names[1..]);
      assert [names[0]] + names[1..] == names;
    }
  }

  /** Agent lines after a rule open a group of their own. */
  lemma AgentLinesOpen(p: Parse, names: seq<string>)
    requires names != [] && !p.lastWasAgent
    ensures Steps(p, AgentLines(names)) == Parse(p.groups + [Group(names, [])], true)
  {
    var q := Step(p, Agent(names[0]));
    assert AgentLines(names)[1..] == AgentLines(names[1..]);
    AgentLinesJoin(q, names[1..]);
    assert [names[0]] + names[1..] == names;
    assert q.groups[..|p.groups|] == p.groups;
  }

  lemma {:induction false} StepsAppend(p: Parse, a: seq<Directive>, b: seq<Directive>)
    ensures Steps(p, a + b) == Steps(Steps(p, a), b)
    decreases |a|
  {
    if a == [] {
      assert a + b == b;
    } else {
      assert (a + b)[1..] == a[1..] + b;
      StepsAppend(Step(p, a[0]), a[1..], b);
    }
  }

  /**
   * Repeating all the agent lines of a group between its rules changes no verdict,
   * whatever the file goes on to say, as long as that is not another agent.
   */
  lemma RepeatedAgentLinesAreHarmless(p: Parse, ds: seq<Directive>, path: string)
    requires p.groups != [] && p.groups[|p.groups| - 1].agents != [] && !p.lastWasAgent
    requires ds != [] ==> !ds[0].Agent?
    ensures
      var names := p.groups[|p.groups| - 1].agents;
      GroupsVerdict(Steps(p, AgentLines(names) + ds).groups, path) == GroupsVerdict(Steps(p, ds).groups, path)
  {
    var k, n, names := |p.groups| - 1, |p.groups[|p.groups| - 1].rules|, p.groups[|p.groups| - 1].agents;
    AgentLinesOpen(p, names);
    StepsAppend(p, AgentLines(names), ds);
    var q := Steps(p, AgentLines(names));
    var g := p.groups[k];
    assert g.rules[..n] == g.rules && g.rules[n..] == [] && p.groups == p.groups[..k] + [g];
    assert q.groups == Split(p.groups, k, n);
    if ds == [] {
      SplitKeepsVerdict(p.groups, k, n, path);
    } else {
      assert Step(q, ds[0]) == Step(q.(lastWasAgent := false), ds[0]);
      StepKeepsSplit(p, q.(lastWasAgent := false), k, n, ds[0]);
      StepsKeepSplit(Step(p, ds[0]), Step(q, ds[0]), k, n, ds[1..]);
      SplitKeepsVerdict(Steps(p, ds).groups, k, n, path);
    }
  }
}
