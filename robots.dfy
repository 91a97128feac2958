/**
 * RobotsTxt: the line parser, which groups consecutive User-agent lines into one shared
 * record of Allow and Disallow paths, and the isAllowed matcher.  The records the Java
 * agent map shares by reference are kept in a sequence and shared by index.
 */
module Robots {
  import opened Wrappers
  import opened JavaText

  /** The two lists of one record; null until the first path of that kind arrives. */
  datatype Record = Record(allow: Option<seq<string>>, disallow: Option<seq<string>>)

  /** The agent map: each preserved agent names the index of its (possibly shared) record. */
  datatype RobotsTxt = RobotsTxt(agentMap: map<string, nat>, records: seq<Record>)

  /** The marker stored for an Allow or Disallow line without a path. */
  const EMPTY_PATH: string := ""

  predicate Valid(r: RobotsTxt)
  {
    forall a :: a in r.agentMap ==> r.agentMap[a] < |r.records|
  }

  /** NO_ROBOTS: the instance with no records. */
  function NoRobots(): (r: RobotsTxt)
    ensures Valid(r) && r.agentMap == map[]
  {
    RobotsTxt(map[], [])
  }

  /**
   * getValue: null without a ':' or with ':' last; otherwise the text after ':', cut at
   * the first '#', trimmed.  A '#' before the ':' makes the substring bounds cross.
   */
  function GetValue(line: string): (r: Result<Option<string>>)
    ensures ':' !in line ==> r == Success(None)
    ensures |line| > 0 && line[|line| - 1] == ':' && ':' !in line[..|line| - 1] ==> r == Success(None)
    ensures r.Success? && r.value.Some? ==> Trim(r.value.value) == r.value.value
    ensures r.Success? && r.value.Some? && line[0] != '#' ==> '#' !in r.value.value
    ensures r.Failure? ==> 0 < IndexOf(line, '#') < IndexOf(line, ':')
  {
    var index := IndexOf(line, ':');
    if index == -1 || index == |line| - 1 then Success(None)
    else
      var endIndex := IndexOf(line, '#');
      if endIndex > 0 then
        if endIndex < index + 1 then Failure(StringIndexOutOfBounds(index + 1, endIndex))
        else
          CommentFreeValue(line, index + 1, endIndex);
          Success(Some(Trim(line[index + 1..endIndex])))
      else
        TrimIdempotent(line[index + 1..]);
        if endIndex == -1 then
          CommentFreeValue(line, index + 1, |line|);
          Success(Some(Trim(line[index + 1..])))
        else
          Success(Some(Trim(line[index + 1..])))
  }

  /** The trimmed text between the colon and the first '#' (or the end) holds no '#'. */
  lemma CommentFreeValue(line: string, begin: nat, end: nat)
    requires begin <= end <= |line|
    requires IndexOf(line, '#') == -1 || end <= IndexOf(line, '#')
    ensures Trim(line[begin..end]) == Trim(Trim(line[begin..end]))
    ensures '#' !in Trim(line[begin..end])
  {
    var v := line[begin..end];
    TrimIdempotent(v);
    assert '#' !in v;
    TrimHasNoNew(v, '#');
  }

  /** Trimming removes characters and never adds one. */
  lemma TrimHasNoNew(s: string, c: char)
    requires c !in s
    ensures c !in Trim(s)
  {
    var t := TrimStart(s);
    assert t == s[|s| - |t|..];
    assert c !in t;
    var u := TrimEnd(t);
    assert u == t[..|u|];
  }

  /** The given agents, lower-cased and trimmed. */
  function NormalisedAgents(agents: seq<string>): set<string>
  {
    if |agents| == 0 then {} else NormalisedAgents(agents[..|agents| - 1]) + {Trim(ToLower(agents[|agents| - 1]))}
  }

  /** The preserved agents: "*" and each given agent lower-cased and trimmed; null keeps every agent. */
  method PreserveAgents(agents: Option<seq<string>>) returns (preserve: Option<set<string>>)
    ensures agents.None? ==> preserve.None?
    ensures agents.Some? ==> preserve == Some({"*"} + NormalisedAgents(agents.value))
  {
    if agents.None? {
      return None;
    }
    var given := agents.value;
    var kept := {"*"};
    var i := 0;
    while i < |given|
      invariant 0 <= i <= |given|
      invariant kept == {"*"} + NormalisedAgents(given[..i])
    {
      assert given[..i + 1][..i] == given[..i];
      kept := kept + {Trim(ToLower(given[i]))};
      i := i + 1;
    }
    assert given[..i] == given;
    preserve := Some(kept);
  }

  /** The parser's variables: the agent map and records, the current record, and newAgent. */
  datatype ParseState = ParseState(agentMap: map<string, nat>, records: seq<Record>, current: Option<nat>, newAgent: bool)

  predicate ValidState(st: ParseState)
  {
    (forall a :: a in st.agentMap ==> st.agentMap[a] < |st.records|) &&
    (st.current.Some? ==> st.current.value < |st.records|)
  }

  function InitialState(): (st: ParseState)
    ensures ValidState(st)
  {
    ParseState(map[], [], None, false)
  }

  /** A path line's path: the empty-path marker when the value is null or empty. */
  function PathOf(value: Option<string>): string
  {
    if value.None? || |value.value| == 0 then EMPTY_PATH else value.value
  }

  function AddAllow(r: Record, path: string): Record
  {
    r.(allow := Some((if r.allow.Some? then r.allow.value else []) + [path]))
  }

  function AddDisallow(r: Record, path: string): Record
  {
    r.(disallow := Some((if r.disallow.Some? then r.disallow.value else []) + [path]))
  }

  /** What a line is, once trimmed and lower-cased, with its getValue result. */
  datatype Directive =
    | Skip
    | UserAgent(value: Result<Option<string>>)
    | DisallowLine(value: Result<Option<string>>)
    | AllowLine(value: Result<Option<string>>)
    | OtherLine

  /** Blank and '#' lines are skipped; the prefixes are tested in the order the RobotsTxt(Reader, Set) constructor tests them. */
  function Classify(rawLine: string): Directive
  {
    var line := Trim(rawLine);
    if |line| == 0 || line[0] == '#' then Skip
    else
      var lc := ToLower(line);
      if StartsWith(lc, "user-agent") then UserAgent(GetValue(lc))
      else if StartsWith(lc, "disallow") then DisallowLine(GetValue(lc))
      else if StartsWith(lc, "allow") then AllowLine(GetValue(lc))
      else OtherLine
  }

  /** The effect of one directive on the parser's variables. */
  function Apply(st: ParseState, d: Directive, preserve: Option<set<string>>): (r: Result<ParseState>)
    requires ValidState(st)
    ensures r.Success? ==> ValidState(r.value)
  {
    match d
    case Skip => Success(st)
    case OtherLine => Success(st.(newAgent := true))
    case UserAgent(value) =>
      if value.Failure? then Failure(value.error)
      else if value.value.None? then Success(st)
      else
        var agent := value.value.value;
        var opens := st.current.None? || st.newAgent;
        var records := if opens then st.records + [Record(None, None)] else st.records;
        var current := if opens then |st.records| else st.current.value;
        var keep := preserve.None? || agent in preserve.value;
        Success(ParseState(if keep then st.agentMap[agent := current] else st.agentMap,
                           records, Some(current), if opens then false else st.newAgent))
    case DisallowLine(value) =>
      if value.Failure? then Failure(value.error)
      else if st.current.None? then Success(st.(newAgent := true))
      else
        var c := st.current.value;
        Success(st.(records := st.records[c := AddDisallow(st.records[c], PathOf(value.value))], newAgent := true))
    case AllowLine(value) =>
      if value.Failure? then Failure(value.error)
      else if st.current.None? then Success(st.(newAgent := true))
      else
        var c := st.current.value;
        Success(st.(records := st.records[c := AddAllow(st.records[c], PathOf(value.value))], newAgent := true))
  }

  /** The loop over the remaining lines; the first failing line ends the parse. */
  function ParseFrom(st: ParseState, lines: seq<string>, preserve: Option<set<string>>): (r: Result<ParseState>)
    requires ValidState(st)
    ensures r.Success? ==> ValidState(r.value)
    decreases |lines|
  {
    if |lines| == 0 then Success(st)
    else
      var next := Apply(st, Classify(lines[0]), preserve);
      if next.Failure? then next else ParseFrom(next.value, lines[1..], preserve)
  }

  /** The parse of a whole file, as the constructor leaves it. */
  function Parsed(lines: seq<string>, preserve: Option<set<string>>): (r: Result<RobotsTxt>)
    ensures r.Success? ==> Valid(r.value)
  {
    var st := ParseFrom(InitialState(), lines, preserve);
    if st.Failure? then Failure(st.error) else Success(RobotsTxt(st.value.agentMap, st.value.records))
  }

  /** The tests at the head of the constructor's loop body: which directive a line is. */
  method ClassifyLine(rawLine: string) returns (d: Directive)
    ensures d == Classify(rawLine)
  {
    var currLine := Trim(rawLine);
    if |currLine| == 0 || currLine[0] == '#' {
      return Skip;
    }
    currLine := ToLower(currLine);
    if StartsWith(currLine, "user-agent") {
      d := UserAgent(GetValue(currLine));
    } else if StartsWith(currLine, "disallow") {
      d := DisallowLine(GetValue(currLine));
    } else if StartsWith(currLine, "allow") {
      d := AllowLine(GetValue(currLine));
    } else {
      d := OtherLine;
    }
  }

  /** The body of the constructor's loop once the line is classified: the parser's variables updated. */
  method ApplyDirective(st: ParseState, d: Directive, preserve: Option<set<string>>) returns (r: Result<ParseState>)
    requires ValidState(st)
    ensures r == Apply(st, d, preserve)
  {
    var agentMap, records, current, newAgent := st.agentMap, st.records, st.current, st.newAgent;
    match d {
      case Skip =>
        return Success(st);
      case UserAgent(currAgent) =>
        if currAgent.Failure? {
          return Failure(currAgent.error);
        }
        if currAgent.value.Some? {
          if current.None? || newAgent {
            records := records + [Record(None, None)];
            current := Some(|records| - 1);
            newAgent := false;
          }
          if preserve.None? || currAgent.value.value in preserve.value {
            agentMap := agentMap[currAgent.value.value := current.value];
          }
        }
      case DisallowLine(path) =>
        newAgent := true;
        if path.Failure? {
          return Failure(path.error);
        }
        if current.Some? {
          records := records[current.value := AddDisallow(records[current.value], PathOf(path.value))];
        }
      case AllowLine(path) =>
        newAgent := true;
        if path.Failure? {
          return Failure(path.error);
        }
        if current.Some? {
          records := records[current.value := AddAllow(records[current.value], PathOf(path.value))];
        }
      case OtherLine =>
        newAgent := true;
    }
    r := Success(ParseState(agentMap, records, current, newAgent));
  }

  /** One iteration of the constructor's loop over the parser's variables. */
  method ParseLine(st: ParseState, rawLine: string, preserve: Option<set<string>>) returns (r: Result<ParseState>)
    requires ValidState(st)
    ensures r == Apply(st, Classify(rawLine), preserve)
  {
    var d := ClassifyLine(rawLine);
    r := ApplyDirective(st, d, preserve);
  }

  /** The constructor's loop over the lines, for a given preserved-agent set. */
  method ParseWith(lines: seq<string>, preserve: Option<set<string>>) returns (r: Result<RobotsTxt>)
    ensures r == Parsed(lines, preserve)
  {
    var st := InitialState();
    var i := 0;
    while i < |lines|
      invariant 0 <= i <= |lines|
      invariant ValidState(st)
      invariant ParseFrom(InitialState(), lines, preserve) == ParseFrom(st, lines[i..], preserve)
    {
      ParseFromStep(st, lines[i..], preserve);
      assert lines[i..][0] == lines[i] && lines[i..][1..] == lines[i + 1..];
      var next := ParseLine(st, lines[i], preserve);
      if next.Failure? {
        return Failure(next.error);
      }
      st := next.value;
      i := i + 1;
    }
    r := Success(RobotsTxt(st.agentMap, st.records));
  }

  /** One unfolding of the parse loop. */
  lemma ParseFromStep(st: ParseState, lines: seq<string>, preserve: Option<set<string>>)
    requires ValidState(st) && |lines| > 0
    ensures var next := Apply(st, Classify(lines[0]), preserve);
      ParseFrom(st, lines, preserve) == if next.Failure? then next else ParseFrom(next.value, lines[1..], preserve)
  {
  }

  /** RobotsTxt(Reader, Set), over the lines the reader yields. */
  method Parse(lines: seq<string>, agents: Option<seq<string>>) returns (r: Result<RobotsTxt>)
    ensures agents.None? ==> r == Parsed(lines, None)
    ensures agents.Some? ==> r == Parsed(lines, Some({"*"} + NormalisedAgents(agents.value)))
  {
    var preserve := PreserveAgents(agents);
    r := ParseWith(lines, preserve);
  }

  /** The first decisive entry of a path list: the empty marker or a prefix of the path. */
  function Scan(list: seq<string>, path: string, onEmpty: bool, onMatch: bool): (r: Option<bool>)
    ensures r.Some? ==> r.value == onEmpty || r.value == onMatch
  {
    if |list| == 0 then None
    else if list[0] == EMPTY_PATH then Some(onEmpty)
    else if StartsWith(path, list[0]) then Some(onMatch)
    else Scan(list[1..], path, onEmpty, onMatch)
  }

  /** isAllowed's path: lower-cased and trimmed, with null or empty read as "/". */
  function NormalisedPath(path: Option<string>): (p: string)
    ensures |p| > 0
  {
    if path.None? then "/"
    else
      var p := Trim(ToLower(path.value));
      if |p| == 0 then "/" else p
  }

  /** The record isAllowed consults: the agent's own, else "*" when wildcards are checked. */
  function RecordFor(r: RobotsTxt, agent: string, checkWildcard: bool): Option<Record>
    requires Valid(r)
  {
    if agent in r.agentMap then Some(r.records[r.agentMap[agent]])
    else if checkWildcard && "*" in r.agentMap then Some(r.records[r.agentMap["*"]])
    else None
  }

  /** The decision isAllowed reaches for a record. */
  function RecordAllows(rec: Record, path: string): bool
  {
    var allowed := if rec.allow.Some? then Scan(rec.allow.value, path, false, true) else None;
    if allowed.Some? then allowed.value
    else if rec.disallow.None? then rec.allow.None?
    else
      var disallowed := Scan(rec.disallow.value, path, true, false);
      if disallowed.Some? then disallowed.value else true
  }

  /** isAllowed(userAgent, path, checkWildcard): no record means allowed. */
  function Allowed(r: RobotsTxt, userAgent: string, path: Option<string>, checkWildcard: bool): bool
    requires Valid(r)
  {
    var rec := RecordFor(r, Trim(ToLower(userAgent)), checkWildcard);
    rec.None? || RecordAllows(rec.value, NormalisedPath(path))
  }

  /** One of isAllowed's scans: the first empty marker or prefix of the path decides. */
  method ScanPaths(list: seq<string>, p: string, onEmpty: bool, onMatch: bool) returns (r: Option<bool>)
    ensures r == Scan(list, p, onEmpty, onMatch)
  {
    var i := 0;
    while i < |list|
      invariant 0 <= i <= |list|
      invariant Scan(list, p, onEmpty, onMatch) == Scan(list[i..], p, onEmpty, onMatch)
    {
      assert list[i..][1..] == list[i + 1..];
      if list[i] == EMPTY_PATH {
        return Some(onEmpty);
      }
      if StartsWith(p, list[i]) {
        return Some(onMatch);
      }
      i := i + 1;
    }
    return None;
  }

  /** The part of isAllowed after the record is found: its two scans and early returns. */
  method RecordDecision(rec: Record, p: string) returns (allowed: bool)
    ensures allowed == RecordAllows(rec, p)
  {
    if rec.allow.Some? {
      var decided := ScanPaths(rec.allow.value, p, false, true);
      if decided.Some? {
        return decided.value;
      }
    }
    if rec.disallow.None? && rec.allow.Some? {
      return false;
    } else if rec.disallow.None? {
      return true;
    }
    var decided := ScanPaths(rec.disallow.value, p, true, false);
    if decided.Some? {
      return decided.value;
    }
    return true;
  }

  /** isAllowed: the path normalised, the agent's record looked up, then decided. */
  method IsAllowed(r: RobotsTxt, userAgent: string, path: Option<string>, checkWildcard: bool) returns (allowed: bool)
    requires Valid(r)
    ensures allowed == Allowed(r, userAgent, path, checkWildcard)
  {
    var p := if path.None? then "/" else Trim(ToLower(path.value));
    if |p| == 0 {
      p := "/";
    }
    var agent := Trim(ToLower(userAgent));
    var agentLists: Option<Record> := None;
    if agent in r.agentMap {
      agentLists := Some(r.records[r.agentMap[agent]]);
    }
    if agentLists.None? && checkWildcard && "*" in r.agentMap {
      agentLists := Some(r.records[r.agentMap["*"]]);
    }
    assert p == NormalisedPath(path);
    assert agentLists == RecordFor(r, agent, checkWildcard);
    if agentLists.None? {
      return true;
    }
    allowed := RecordDecision(agentLists.value, p);
  }

  /** NO_ROBOTS allows every agent every path. */
  lemma NoRobotsAllowsAll(userAgent: string, path: Option<string>, checkWildcard: bool)
    ensures Allowed(NoRobots(), userAgent, path, checkWildcard)
  {
  }

  /** Without an empty marker, a scan decides exactly when some entry is a prefix of the path. */
  lemma {:induction false} ScanWithoutMarker(list: seq<string>, path: string, onEmpty: bool, onMatch: bool)
    requires forall i :: 0 <= i < |list| ==> list[i] != EMPTY_PATH
    ensures Scan(list, path, onEmpty, onMatch).Some? <==> exists i :: 0 <= i < |list| && StartsWith(path, list[i])
    ensures Scan(list, path, onEmpty, onMatch).Some? ==> Scan(list, path, onEmpty, onMatch).value == onMatch
  {
    if |list| > 0 {
      ScanWithoutMarker(list[1..], path, onEmpty, onMatch);
      if !StartsWith(path, list[0]) {
        if exists i :: 0 <= i < |list| && StartsWith(path, list[i]) {
          var i :| 0 <= i < |list| && StartsWith(path, list[i]);
          assert list[1..][i - 1] == list[i];
        }
        if exists i :: 0 <= i < |list[1..]| && StartsWith(path, list[1..][i]) {
          var i :| 0 <= i < |list[1..]| && StartsWith(path, list[1..][i]);
          assert list[i + 1] == list[1..][i];
        }
      }
    }
  }

  /** A record with only Disallow paths, none empty, refuses exactly the paths they prefix. */
  lemma DisallowOnly(rec: Record, path: string)
    requires rec.allow.None? && rec.disallow.Some?
    requires forall i :: 0 <= i < |rec.disallow.value| ==> rec.disallow.value[i] != EMPTY_PATH
    ensures !RecordAllows(rec, path) <==> exists i :: 0 <= i < |rec.disallow.value| && StartsWith(path, rec.disallow.value[i])
  {
    ScanWithoutMarker(rec.disallow.value, path, true, false);
  }

  /** A record with only Allow paths, none empty, admits exactly the paths they prefix. */
  lemma AllowOnly(rec: Record, path: string)
    requires rec.allow.Some? && rec.disallow.None?
    requires forall i :: 0 <= i < |rec.allow.value| ==> rec.allow.value[i] != EMPTY_PATH
    ensures RecordAllows(rec, path) <==> exists i :: 0 <= i < |rec.allow.value| && StartsWith(path, rec.allow.value[i])
  {
    ScanWithoutMarker(rec.allow.value, path, false, true);
  }

  /** An Allow path matching the path wins over any Disallow path. */
  lemma AllowWinsOverDisallow(rec: Record, path: string)
    requires rec.allow.Some? && |rec.allow.value| > 0
    requires rec.allow.value[0] != EMPTY_PATH && StartsWith(path, rec.allow.value[0])
    ensures RecordAllows(rec, path)
  {
  }

  /** An empty Allow line first means nothing is allowed, however the Disallow paths read. */
  lemma EmptyAllowRefusesAll(rec: Record, path: string)
    requires rec.allow.Some? && |rec.allow.value| > 0 && rec.allow.value[0] == EMPTY_PATH
    ensures !RecordAllows(rec, path)
  {
  }

  /** A User-agent line right after another shares that agent's record. */
  lemma ConsecutiveAgentsShare(st: ParseState, agent: string, preserve: Option<set<string>>)
    requires ValidState(st) && st.current.Some? && !st.newAgent
    requires preserve.None? || agent in preserve.value
    ensures var next := Apply(st, UserAgent(Success(Some(agent))), preserve);
      next.Success? && next.value.current == st.current && next.value.records == st.records &&
      next.value.agentMap == st.agentMap[agent := st.current.value]
  {
  }

  /** After any other directive, the next User-agent line opens a fresh, empty record. */
  lemma AgentAfterDirectiveStartsRecord(st: ParseState, agent: string, preserve: Option<set<string>>)
    requires ValidState(st) && st.newAgent
    ensures var next := Apply(st, UserAgent(Success(Some(agent))), preserve);
      next.Success? && next.value.current == Some(|st.records|) &&
      next.value.records == st.records + [Record(None, None)] && !next.value.newAgent
  {
  }

  /** An agent outside the preserved set is not mapped, though its record is still opened. */
  lemma UnpreservedAgentDropped(st: ParseState, agent: string, preserve: Option<set<string>>)
    requires ValidState(st) && preserve.Some? && agent !in preserve.value
    ensures var next := Apply(st, UserAgent(Success(Some(agent))), preserve);
      next.Success? && next.value.agentMap == st.agentMap
  {
  }

  /** Allow and Disallow lines before any User-agent line change nothing but newAgent. */
  lemma PathBeforeAgentIgnored(st: ParseState, value: Option<string>, preserve: Option<set<string>>)
    requires ValidState(st) && st.current.None?
    ensures Apply(st, AllowLine(Success(value)), preserve) == Success(st.(newAgent := true))
    ensures Apply(st, DisallowLine(Success(value)), preserve) == Success(st.(newAgent := true))
  {
  }

  /** A Disallow line appends its path, or the empty marker, to the current record only. */
  lemma DisallowAppends(st: ParseState, value: Option<string>, preserve: Option<set<string>>)
    requires ValidState(st) && st.current.Some?
    ensures var next := Apply(st, DisallowLine(Success(value)), preserve);
      var c := st.current.value;
      next.Success? && |next.value.records| == |st.records| &&
      next.value.records[c].disallow.Some? &&
      next.value.records[c].disallow.value ==
        (if st.records[c].disallow.Some? then st.records[c].disallow.value else []) + [PathOf(value)] &&
      next.value.records[c].allow == st.records[c].allow &&
      (forall k :: 0 <= k < |st.records| && k != c ==> next.value.records[k] == st.records[k]) &&
      next.value.newAgent
  {
  }

  /** "name: value" with no '#' yields the trimmed value; an empty value yields null. */
  lemma GetValueOfDirective(name: string, value: string)
    requires ':' !in name && '#' !in name && '#' !in value
    ensures |value| == 0 ==> GetValue(name + ":" + value) == Success(None)
    ensures |value| > 0 ==> GetValue(name + ":" + value) == Success(Some(Trim(value)))
  {
    var line := name + ":" + value;
    assert line[..|name|] == name;
    IndexOfIs(line, ':', |name|);
    assert '#' !in line;
    assert line[|name| + 1..] == value;
  }

  /** "name: value # comment" yields the trimmed value: the comment is cut off. */
  lemma GetValueCutsComment(name: string, value: string, comment: string)
    requires |name| > 0 && ':' !in name && '#' !in name && '#' !in value
    ensures GetValue(name + ":" + value + "#" + comment) == Success(Some(Trim(value)))
  {
    var line := name + ":" + value + "#" + comment;
    var hash := |name| + 1 + |value|;
    assert line[..|name|] == name;
    IndexOfIs(line, ':', |name|);
    assert '#' !in line[..hash];
    IndexOfIs(line, '#', hash);
    assert line[|name| + 1..hash] == value;
  }

  /** GetValue's failing branch, stated on the two indices alone. */
  lemma GetValueCrossing(line: string, colon: int, hash: int)
    requires IndexOf(line, ':') == colon && IndexOf(line, '#') == hash
    requires 0 < hash <= colon < |line| - 1
    ensures GetValue(line) == Failure(StringIndexOutOfBounds(colon + 1, hash))
  {
  }

  /** A '#' before the ':' makes the substring bounds cross: the failure carries both. */
  lemma GetValueCommentBeforeColon(before: string, between: string, after: string)
    requires |before| > 0 && |after| > 0 && '#' !in before && ':' !in before && ':' !in between
    ensures var line := before + "#" + between + ":" + after;
      GetValue(line) == Failure(StringIndexOutOfBounds(|before| + |between| + 2, |before|))
  {
    var pre := before + "#" + between;
    var line := pre + ":" + after;
    var colon := |pre|;
    assert line[..|before|] == before;
    assert line[|before|] == '#';
    IndexOfIs(line, '#', |before|);
    assert line[..colon] == pre;
    assert ':' !in pre by {
      forall i | 0 <= i < |pre| ensures pre[i] != ':' {
        if i < |before| {
          assert pre[i] == before[i];
        } else if i > |before| {
          assert pre[i] == between[i - |before| - 1];
        }
      }
    }
    assert line[colon] == ':';
    IndexOfIs(line, ':', colon);
    GetValueCrossing(line, colon, |before|);
  }
}
