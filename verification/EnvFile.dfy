/**
 The .env printer and parser: packages/env-cli/src/env-generator.ts and env-file.ts.

 A string is a sequence of characters; `trim` removes the white space and line terminators of ECMAScript.
 */
module EnvFile {
  import opened Wrappers
  import opened Text

  // ---------------------------------------------------------------- strings

  predicate Space(c: char) {
    || '\t' <= c <= '\r' || c == ' ' || c == '\U{A0}' || c == '\U{FEFF}' || c == '\U{1680}'
    || '\U{2000}' <= c <= '\U{200A}'
    || c == '\U{2028}' || c == '\U{2029}' || c == '\U{202F}' || c == '\U{205F}' || c == '\U{3000}'
  }

  ghost predicate SingleLine(s: string) { '\n' !in s }

  ghost predicate AllSingleLine(lines: seq<string>) { forall i :: 0 <= i < |lines| ==> SingleLine(lines[i]) }

  function TrimEnd(s: string): string
    decreases |s|
  {
    if s != "" && Space(s[|s| - 1]) then TrimEnd(s[..|s| - 1]) else s
  }

  function TrimStart(s: string): string
    decreases |s|
  {
    if s != "" && Space(s[0]) then TrimStart(s[1..]) else s
  }

  ghost predicate AllSpace(s: string) { forall i :: 0 <= i < |s| ==> Space(s[i]) }

  lemma {:induction false} TrimEndStrips(s: string)
    ensures TrimEnd(s) <= s && AllSpace(s[|TrimEnd(s)|..])
    ensures TrimEnd(s) != "" ==> !Space(TrimEnd(s)[|TrimEnd(s)| - 1])
    decreases |s|
  {
    if s != "" && Space(s[|s| - 1]) {
      TrimEndStrips(s[..|s| - 1]);
      var k := |TrimEnd(s)|;
      assert s[k..] == s[..|s| - 1][k..] + [s[|s| - 1]];
    }
  }

  lemma {:induction false} TrimStartStrips(s: string)
    ensures |TrimStart(s)| <= |s| && s[|s| - |TrimStart(s)|..] == TrimStart(s) && AllSpace(s[..|s| - |TrimStart(s)|])
    ensures TrimStart(s) != "" ==> !Space(TrimStart(s)[0])
    decreases |s|
  {
    if s != "" && Space(s[0]) {
      TrimStartStrips(s[1..]);
      var k := |s| - |TrimStart(s)|;
      assert s[..k] == [s[0]] + s[1..][..k - 1];
    }
  }

  function Trim(s: string): string { TrimStart(TrimEnd(s)) }

  /** Trimming removes white space only, and all of it at both ends. */
  lemma TrimStrips(s: string) returns (before: string, after: string)
    ensures s == before + Trim(s) + after && AllSpace(before) && AllSpace(after)
    ensures Trim(s) != "" ==> !Space(Trim(s)[0]) && !Space(Trim(s)[|Trim(s)| - 1])
  {
    var head := TrimEnd(s);
    TrimEndStrips(s);
    TrimStartStrips(head);
    before, after := head[..|head| - |Trim(s)|], s[|head|..];
    assert head == before + Trim(s);
  }

  lemma TrimmedAlready(s: string)
    requires s != "" ==> !Space(s[0]) && !Space(s[|s| - 1])
    ensures Trim(s) == s
  {
  }

  /** The white space of ECMAScript and its line terminators: sections 12.2 and 12.3 of ECMA-262. */
  lemma SpaceExactly(c: char)
    ensures Space(c) <==> c as int in {
      0x09, 0x0A, 0x0B, 0x0C, 0x0D, 0x20, 0xA0, 0x1680, 0x2000, 0x2001, 0x2002, 0x2003, 0x2004, 0x2005, 0x2006, 0x2007,
      0x2008, 0x2009, 0x200A, 0x2028, 0x2029, 0x202F, 0x205F, 0x3000, 0xFEFF}
  {
  }

  ghost predicate Tight(s: string) { s != "" ==> !Space(s[0]) && !Space(s[|s| - 1]) }

  lemma {:induction false} TrimStartOf(before: string, s: string)
    requires AllSpace(before) && (s != "" ==> !Space(s[0]))
    ensures TrimStart(before + s) == s
    decreases |before|
  {
    if before == "" {
      assert before + s == s;
    } else {
      assert (before + s)[1..] == before[1..] + s;
      TrimStartOf(before[1..], s);
    }
  }

  lemma {:induction false} TrimEndOf(s: string, after: string)
    requires AllSpace(after) && (s != "" ==> !Space(s[|s| - 1]))
    ensures TrimEnd(s + after) == s
    decreases |after|
  {
    if after == "" {
      assert s + after == s;
    } else {
      assert (s + after)[..|s + after| - 1] == s + after[..|after| - 1];
      TrimEndOf(s, after[..|after| - 1]);
    }
  }

  /** Trimming gives what is left between any white space. */
  lemma TrimOf(before: string, s: string, after: string)
    requires AllSpace(before) && AllSpace(after) && Tight(s)
    ensures Trim(before + s + after) == s
  {
    if s == "" {
      assert before + s + after == "" + (before + after);
      TrimEndOf("", before + after);
    } else {
      TrimEndOf(before + s, after);
      TrimStartOf(before, s);
    }
  }

  /** split("\n") */
  function Split(s: string): (lines: seq<string>)
    ensures lines != [] && AllSingleLine(lines)
    decreases |s|
  {
    match IndexOf(s, '\n', 0)
    case None => [s]
    case Some(i) => [s[..i]] + Split(s[i + 1..])
  }

  /** join("\n") */
  function Join(lines: seq<string>): string {
    if lines == [] then "" else if |lines| == 1 then lines[0] else lines[0] + "\n" + Join(lines[1..])
  }

  lemma {:induction false} SplitUndoesJoin(lines: seq<string>)
    requires lines != [] && AllSingleLine(lines)
    ensures Split(Join(lines)) == lines
  {
    if |lines| > 1 {
      var text := Join(lines);
      assert text[..|lines[0]|] == lines[0] && text[|lines[0]|] == '\n' && text[|lines[0]| + 1..] == Join(lines[1..]);
      assert forall i :: 0 <= i < |lines[0]| ==> text[i] == lines[0][i] != '\n';
      assert IndexOf(text, '\n', 0) == Some(|lines[0]|);
      SplitUndoesJoin(lines[1..]);
    } else {
      assert IndexOf(lines[0], '\n', 0) == None;
    }
  }

  // ---------------------------------------------------------------- the parser

  /** Both ends carry the same kind of quote; a lone quote is both ends. */
  predicate Quoted(value: string) {
    value != "" && (value[0] == '"' || value[0] == '\'') && value[|value| - 1] == value[0]
  }

  /** slice(1, -1) of a quoted value. */
  function Unquote(value: string): string {
    if !Quoted(value) then value else if |value| == 1 then "" else value[1..|value| - 1]
  }

  /** `vars.__proto__ = "..."` on an object literal assigns nothing. */
  const PROTO := "__proto__"

  /** The key and value of a line, unless it is skipped. */
  function Assignment(line: string): Option<(string, string)> {
    var trimmed := Trim(line);
    if trimmed == "" || trimmed[0] == '#' then None else
    var at := IndexOf(trimmed, '=', 0);
    if at.None? then None
    else Some((Trim(trimmed[..at.value]), Unquote(Trim(trimmed[at.value + 1..]))))
  }

  function Assign(vars: map<string, string>, line: string): map<string, string> {
    var a := Assignment(line);
    if a.None? || a.value.0 == PROTO then vars else vars[a.value.0 := a.value.1]
  }

  function AssignAll(vars: map<string, string>, lines: seq<string>): map<string, string>
    decreases |lines|
  {
    if lines == [] then vars else Assign(AssignAll(vars, lines[..|lines| - 1]), lines[|lines| - 1])
  }

  function Parsed(content: string): map<string, string> { AssignAll(map[], Split(content)) }

  /** The body of the parser's loop; None where it goes on to the next line. */
  method ParseLine(line: string) returns (assignment: Option<(string, string)>)
    ensures assignment == Assignment(line)
  {
    var trimmed := Trim(line);
    if trimmed == "" || trimmed[0] == '#' { return None; }
    var eqIndex := IndexOf(trimmed, '=', 0);
    if eqIndex.None? { return None; }
    var key := Trim(trimmed[..eqIndex.value]);
    var value := Trim(trimmed[eqIndex.value + 1..]);
    if value != "" &&
       ((value[0] == '"' && value[|value| - 1] == '"') || (value[0] == '\'' && value[|value| - 1] == '\'')) {
      value := if |value| == 1 then "" else value[1..|value| - 1];
    }
    assignment := Some((key, value));
  }

  lemma AssignNextLine(vars: map<string, string>, lines: seq<string>, k: nat)
    requires k < |lines|
    ensures AssignAll(vars, lines[..k + 1]) == Assign(AssignAll(vars, lines[..k]), lines[k])
  {
    assert lines[..k + 1][..k] == lines[..k];
  }

  method ParseEnvFile(content: string) returns (vars: map<string, string>)
    ensures vars == Parsed(content)
  {
    vars := map[];
    var lines := Split(content);
    for k := 0 to |lines|
      invariant vars == AssignAll(map[], lines[..k])
    {
      AssignNextLine(map[], lines, k);
      var assignment := ParseLine(lines[k]);
      if assignment.None? { continue; }
      if assignment.value.0 != PROTO { vars := vars[assignment.value.0 := assignment.value.1]; }
    }
    assert lines[..|lines|] == lines;
  }

  lemma {:induction false} AssignAllInParts(vars: map<string, string>, a: seq<string>, b: seq<string>)
    ensures AssignAll(vars, a + b) == AssignAll(AssignAll(vars, a), b)
    decreases |b|
  {
    if b == [] {
      assert a + b == a;
    } else {
      assert (a + b)[..|a + b| - 1] == a + b[..|b| - 1];
      AssignAllInParts(vars, a, b[..|b| - 1]);
    }
  }

  // ---------------------------------------------------------------- one line

  /** A key that a line can carry. */
  ghost predicate GoodKey(key: string) {
    && SingleLine(key) && '=' !in key && key != PROTO
    && (key != "" ==> !Space(key[0]) && !Space(key[|key| - 1]) && key[0] != '#')
  }

  /** What a value becomes by being printed and parsed. */
  function ReadBack(value: string): string { Unquote(Trim(value)) }

  /** Without white space at either end, and not between quotes. */
  ghost predicate Clean(value: string) {
    && (value != "" ==> !Space(value[0]) && !Space(value[|value| - 1]))
    && !Quoted(value)
  }

  /** A single-line value reads back as itself exactly when it is clean. */
  lemma ReadBackExactly(value: string)
    ensures ReadBack(value) == value <==> Clean(value)
  {
    var before, after := TrimStrips(value);
    if value != "" && !Space(value[0]) && !Space(value[|value| - 1]) {
      TrimmedAlready(value);
    } else if value != "" {
      assert |Trim(value)| < |value|;
      assert |ReadBack(value)| < |value|;
    }
  }

  lemma {:induction false} TrimEndKeepsHead(head: string, value: string)
    requires head != "" && !Space(head[|head| - 1])
    ensures TrimEnd(head + value) == head + TrimEnd(value)
    decreases |value|
  {
    var whole := head + value;
    if value == "" {
      assert whole == head;
    } else if Space(value[|value| - 1]) {
      assert whole[..|whole| - 1] == head + value[..|value| - 1];
      TrimEndKeepsHead(head, value[..|value| - 1]);
    }
  }

  lemma AssignmentLine(key: string, value: string)
    requires GoodKey(key)
    ensures Assignment(key + "=" + value) == Some((key, ReadBack(value)))
  {
    var trimmed := key + "=" + TrimEnd(value);
    assert Trim(key + "=" + value) == trimmed by { TrimEndKeepsHead(key + "=", value); }
    IndexOfFirst(trimmed, '=', |key|, 0);
    assert trimmed[..|key|] == key;
    TrimmedAlready(key);
    assert trimmed[|key| + 1..] == TrimEnd(value);
    assert TrimEnd(TrimEnd(value)) == TrimEnd(value) by { TrimEndStrips(value); }
  }

  lemma CommentLine(text: string)
    ensures Assignment("#" + text) == None
  {
    assert Trim("#" + text) == "#" + TrimEnd(text) by { TrimEndKeepsHead("#", text); }
  }

  ghost predicate Comments(lines: seq<string>) { forall i :: 0 <= i < |lines| ==> lines[i] == "" || lines[i][0] == '#' }

  lemma {:induction false} CommentLines(vars: map<string, string>, lines: seq<string>)
    requires Comments(lines)
    ensures AssignAll(vars, lines) == vars
    decreases |lines|
  {
    if lines != [] {
      CommentLines(vars, lines[..|lines| - 1]);
      var last := lines[|lines| - 1];
      if last != "" {
        CommentLine(last[1..]);
        assert last == "#" + last[1..];
      }
    }
  }

  // ---------------------------------------------------------------- any line, and any file

  /** What a text stands for: what is between equal quotes, nothing for a lone quote, and itself otherwise. */
  ghost predicate StandsFor(text: string, value: string) {
    || text == "\"" + value + "\"" || text == "'" + value + "'"
    || (value == "" && (text == "\"" || text == "'"))
    || (value == text && !(text != "" && text[0] == text[|text| - 1] && (text[0] == '"' || text[0] == '\'')))
  }

  lemma UnquoteExactly(text: string, value: string)
    ensures Unquote(text) == value <==> StandsFor(text, value)
  {
    if |text| > 1 && Quoted(text) { assert text == [text[0]] + text[1..|text| - 1] + [text[0]]; }
    assert ("\"" + value + "\"")[1..|value| + 1] == value == ("'" + value + "'")[1..|value| + 1];
  }

  /** The line is a key, an equals sign and a text, with white space around each; a key does not begin a comment. */
  ghost predicate HasParts(line: string, before: string, key: string, gap: string, lead: string, text: string,
      after: string) {
    && line == before + (key + gap + "=" + lead + text) + after
    && AllSpace(before) && AllSpace(gap) && AllSpace(lead) && AllSpace(after) && Tight(key) && Tight(text)
    && (key == "" ==> gap == "") && (text == "" ==> lead == "")
    && '=' !in key && (key != "" ==> key[0] != '#')
  }

  ghost predicate Assigns(line: string, key: string, value: string) {
    exists before, gap, lead, text, after ::
      HasParts(line, before, key, gap, lead, text, after) && StandsFor(text, value)
  }

  lemma SpacesHaveNoEquals(s: string)
    requires AllSpace(s)
    ensures '=' !in s
  {
    assert !Space('=');
  }

  lemma CutAtEquals(left: string, right: string)
    requires '=' !in left
    ensures
      var core := left + "=" + right;
      IndexOf(core, '=', 0) == Some(|left|) && core[..|left|] == left && core[|left| + 1..] == right
  {
    IndexOfFirst(left + "=" + right, '=', |left|, 0);
  }

  lemma TightAroundEquals(left: string, right: string)
    requires (left != "" ==> !Space(left[0])) && (right != "" ==> !Space(right[|right| - 1]))
    ensures Tight(left + "=" + right) && (left + "=" + right)[0] == if left == "" then '=' else left[0]
  {
    assert !Space('=');
  }

  lemma PartsAreAssigned(line: string, before: string, key: string, gap: string, lead: string, text: string,
      after: string)
    requires HasParts(line, before, key, gap, lead, text, after)
    ensures Assignment(line) == Some((key, Unquote(text)))
  {
    var left, right := key + gap, lead + text;
    var core := left + "=" + right;
    TightAroundEquals(left, right);
    assert Trim(line) == core by {
      assert core == key + gap + "=" + lead + text;
      TrimOf(before, core, after);
    }
    SpacesHaveNoEquals(gap);
    CutAtEquals(left, right);
    assert Trim(left) == key by {
      assert left == "" + key + gap;
      TrimOf("", key, gap);
    }
    assert Trim(right) == text by {
      assert right == lead + text + "";
      TrimOf(lead, text, "");
    }
  }

  lemma NothingToTrimBefore(s: string) returns (gap: string)
    requires s != "" ==> !Space(s[0])
    ensures s == Trim(s) + gap && Tight(Trim(s)) && AllSpace(gap) && (Trim(s) == "" ==> gap == "")
  {
    TrimEndStrips(s);
    gap := s[|TrimEnd(s)|..];
    if TrimEnd(s) != "" { assert TrimEnd(s)[0] == s[0]; }
  }

  lemma NothingToTrimAfter(s: string) returns (lead: string)
    requires s != "" ==> !Space(s[|s| - 1])
    ensures s == lead + Trim(s) && Tight(Trim(s)) && AllSpace(lead) && (Trim(s) == "" ==> lead == "")
  {
    assert TrimEnd(s) == s;
    TrimStartStrips(s);
    lead := s[..|s| - |Trim(s)|];
    if Trim(s) != "" { assert Trim(s)[|Trim(s)| - 1] == s[|s| - 1]; }
  }

  lemma SidesOf(line: string) returns (before: string, left: string, right: string, after: string)
    requires Assignment(line).Some?
    ensures line == before + (left + "=" + right) + after && AllSpace(before) && AllSpace(after) && '=' !in left
    ensures left != "" ==> !Space(left[0]) && left[0] != '#'
    ensures right != "" ==> !Space(right[|right| - 1])
    ensures Assignment(line).value == (Trim(left), Unquote(Trim(right)))
  {
    before, after := TrimStrips(line);
    var trimmed := Trim(line);
    var at := IndexOf(trimmed, '=', 0).value;
    left, right := trimmed[..at], trimmed[at + 1..];
    assert trimmed == left + "=" + right;
  }

  lemma PartsOfSides(line: string, before: string, left: string, right: string, after: string)
    returns (gap: string, lead: string)
    requires line == before + (left + "=" + right) + after && AllSpace(before) && AllSpace(after) && '=' !in left
    requires left != "" ==> !Space(left[0]) && left[0] != '#'
    requires right != "" ==> !Space(right[|right| - 1])
    ensures HasParts(line, before, Trim(left), gap, lead, Trim(right), after)
  {
    gap := NothingToTrimBefore(left);
    lead := NothingToTrimAfter(right);
    assert left + "=" + right == Trim(left) + gap + "=" + lead + Trim(right);
    assert '=' !in Trim(left) by { assert forall i :: 0 <= i < |Trim(left)| ==> Trim(left)[i] == left[i]; }
    assert Trim(left) != "" ==> Trim(left)[0] == left[0];
  }

  lemma AssignedHasParts(line: string) returns (before: string, gap: string, lead: string, text: string, after: string)
    requires Assignment(line).Some?
    ensures HasParts(line, before, Assignment(line).value.0, gap, lead, text, after)
    ensures Assignment(line).value.1 == Unquote(text)
  {
    var left, right;
    before, left, right, after := SidesOf(line);
    gap, lead := PartsOfSides(line, before, left, right, after);
    text := Trim(right);
  }

  /** What any line assigns. */
  lemma AssignmentExactly(line: string, key: string, value: string)
    ensures Assignment(line) == Some((key, value)) <==> Assigns(line, key, value)
  {
    if Assignment(line) == Some((key, value)) {
      var before, gap, lead, text, after := AssignedHasParts(line);
      UnquoteExactly(text, value);
    }
    if before, gap, lead, text, after :| HasParts(line, before, key, gap, lead, text, after) && StandsFor(text, value) {
      PartsAreAssigned(line, before, key, gap, lead, text, after);
      UnquoteExactly(text, value);
    }
  }

  ghost predicate Ignores(line: string, key: string) { forall value :: !Assigns(line, key, value) }

  /** This line assigns the key, and no later one does. */
  ghost predicate AssignsLast(lines: seq<string>, k: nat, key: string, value: string) {
    && k < |lines| && Assigns(lines[k], key, value)
    && forall j :: k < j < |lines| ==> Ignores(lines[j], key)
  }

  lemma SameInFront(lines: seq<string>, k: nat, key: string, value: string)
    requires k < |lines| - 1 && Ignores(lines[|lines| - 1], key)
    ensures AssignsLast(lines, k, key, value) <==> AssignsLast(lines[..|lines| - 1], k, key, value)
  {
  }

  lemma NextLineAssigns(lines: seq<string>, key: string, value: string)
    requires lines != []
    ensures
      var rest, last := lines[..|lines| - 1], lines[|lines| - 1];
      (exists k :: AssignsLast(lines, k, key, value))
      <==> Assigns(last, key, value)
           || (Ignores(last, key) && exists k :: AssignsLast(rest, k, key, value))
  {
    var n := |lines| - 1;
    if Assigns(lines[n], key, value) {
      assert AssignsLast(lines, n, key, value);
    } else if Ignores(lines[n], key) {
      forall k: nat | k < n
        ensures AssignsLast(lines, k, key, value) <==> AssignsLast(lines[..n], k, key, value)
      {
        SameInFront(lines, k, key, value);
      }
    }
  }

  lemma {:induction false} LastAssignmentWins(lines: seq<string>, key: string, value: string)
    ensures key in AssignAll(map[], lines) && AssignAll(map[], lines)[key] == value
            <==> key != "__proto__" && exists k :: AssignsLast(lines, k, key, value)
    decreases |lines|
  {
    if lines != [] {
      var last := lines[|lines| - 1];
      LastAssignmentWins(lines[..|lines| - 1], key, value);
      NextLineAssigns(lines, key, value);
      forall v ensures Assignment(last) == Some((key, v)) <==> Assigns(last, key, v) {
        AssignmentExactly(last, key, v);
      }
    }
  }

  /** The variables of any file: the last assignment of each key, `__proto__` excepted. */
  lemma ParsedExactly(lines: seq<string>, key: string, value: string)
    requires lines != [] && AllSingleLine(lines)
    ensures key in Parsed(Join(lines)) && Parsed(Join(lines))[key] == value
            <==> key != "__proto__" && exists k :: AssignsLast(lines, k, key, value)
  {
    SplitUndoesJoin(lines);
    LastAssignmentWins(lines, key, value);
  }

  // ---------------------------------------------------------------- the printer

  datatype RawSecret = RawSecret(secretKey: string, secretValue: string)

  datatype InfisicalBootstrap = InfisicalBootstrap(siteUrl: string, projectId: string, environment: string,
                                                   clientId: string, clientSecret: string)

  /** A key with its value or its default. */
  type Pair = (string, string)

  /** `infraKeys` in the order of Object.entries. */
  datatype EnvCliConfig = EnvCliConfig(name: string, infraKeys: seq<Pair>)

  datatype EnvGeneratorResult = EnvGeneratorResult(content: string, infraFromInfisical: nat, infraFromDefaults: nat,
                                                   runtimeCount: nat)

  ghost predicate DistinctKeys(pairs: seq<Pair>) {
    forall i, j :: 0 <= i < j < |pairs| ==> pairs[i].0 != pairs[j].0
  }

  /** The members every object inherits, which `in` finds as well. */
  const INHERITED := {"constructor", "__defineGetter__", "__defineSetter__", "hasOwnProperty", "__lookupGetter__",
                      "__lookupSetter__", "isPrototypeOf", "propertyIsEnumerable", "toString", "valueOf", PROTO,
                      "toLocaleString"}

  predicate InObject(key: string, pairs: seq<Pair>) {
    key in INHERITED || exists i :: 0 <= i < |pairs| && pairs[i].0 == key
  }

  /** The last secret of each key. */
  function SecretMap(secrets: seq<RawSecret>): map<string, string>
    decreases |secrets|
  {
    if secrets == [] then map[] else
    var last := secrets[|secrets| - 1];
    SecretMap(secrets[..|secrets| - 1])[last.secretKey := last.secretValue]
  }

  lemma {:induction false} LastSecretWins(secrets: seq<RawSecret>, i: nat)
    requires i < |secrets| && forall j :: i < j < |secrets| ==> secrets[j].secretKey != secrets[i].secretKey
    ensures secrets[i].secretKey in SecretMap(secrets)
    ensures SecretMap(secrets)[secrets[i].secretKey] == secrets[i].secretValue
    decreases |secrets|
  {
    if i < |secrets| - 1 {
      LastSecretWins(secrets[..|secrets| - 1], i);
    }
  }

  function Effective(secretMap: map<string, string>, pair: Pair): Pair {
    (pair.0, if pair.0 in secretMap then secretMap[pair.0] else pair.1)
  }

  function EffectiveAll(secretMap: map<string, string>, pairs: seq<Pair>): (r: seq<Pair>)
    ensures |r| == |pairs| && forall i :: 0 <= i < |r| ==> r[i] == Effective(secretMap, pairs[i])
  {
    seq(|pairs|, i requires 0 <= i < |pairs| => Effective(secretMap, pairs[i]))
  }

  function Assignments(pairs: seq<Pair>): (lines: seq<string>)
    ensures |lines| == |pairs| && forall i :: 0 <= i < |lines| ==> lines[i] == pairs[i].0 + "=" + pairs[i].1
  {
    seq(|pairs|, i requires 0 <= i < |pairs| => pairs[i].0 + "=" + pairs[i].1)
  }

  function CredentialPairs(bootstrap: InfisicalBootstrap): seq<Pair> {
    [("INFISICAL_SITE_URL", bootstrap.siteUrl), ("INFISICAL_PROJECT_ID", bootstrap.projectId),
     ("INFISICAL_ENVIRONMENT", bootstrap.environment), ("INFISICAL_CLIENT_ID", bootstrap.clientId),
     ("INFISICAL_CLIENT_SECRET", bootstrap.clientSecret)]
  }

  function BootstrapPairs(bootstrap: InfisicalBootstrap): seq<Pair> {
    [("SECRETS_PROVIDER", "infisical")] + CredentialPairs(bootstrap)
  }

  function RuntimeKeys(secrets: seq<RawSecret>, pairs: seq<Pair>): seq<string>
    decreases |secrets|
  {
    if secrets == [] then [] else
    var key := secrets[|secrets| - 1].secretKey;
    RuntimeKeys(secrets[..|secrets| - 1], pairs) + if InObject(key, pairs) then [] else [key]
  }

  lemma {:induction false} RuntimeKeysExactly(secrets: seq<RawSecret>, pairs: seq<Pair>, key: string)
    ensures key in RuntimeKeys(secrets, pairs) <==>
      && key !in INHERITED && (forall i :: 0 <= i < |pairs| ==> pairs[i].0 != key)
      && exists i :: 0 <= i < |secrets| && secrets[i].secretKey == key
    decreases |secrets|
  {
    if secrets != [] {
      var rest := secrets[..|secrets| - 1];
      RuntimeKeysExactly(rest, pairs, key);
      if i :| 0 <= i < |rest| && rest[i].secretKey == key { assert secrets[i].secretKey == key; }
      if i :| 0 <= i < |secrets| && secrets[i].secretKey == key {
        if i < |rest| { assert rest[i].secretKey == key; }
      }
    }
  }

  lemma {:induction false} DecimalIsSingleLine(n: nat)
    ensures SingleLine(Decimal(n))
  {
    if n >= 10 { DecimalIsSingleLine(n / 10); }
  }

  const DOUBLE := "═════════════════════"
  const SINGLE := "──────────────────────"

  function TitleLines(name: string, environment: string, generatedAt: string): seq<string> {
    ["# " + DOUBLE + DOUBLE + DOUBLE,
     "# " + name + " — Docker 環境変数 (自動生成)",
     "# Generated: " + generatedAt,
     "# Source: Infisical (" + environment + ")"]
  }

  const NOTE_LINES :=
    ["#",
     "# このファイルは env-cli env で再生成できます。",
     "# 手動編集しても次回の env 実行で上書きされます。",
     "# " + DOUBLE + DOUBLE + DOUBLE]

  const INFRA_HEADING := ["", "# ─── Infrastructure" + " (Docker Compose 用) " + SINGLE]

  function HeaderLines(name: string, environment: string, generatedAt: string): seq<string> {
    TitleLines(name, environment, generatedAt) + NOTE_LINES + INFRA_HEADING
  }

  const BOOTSTRAP_HEADING := ["", "# ─── Infisical Bootstrap" + " (サービス用) " + SINGLE]

  function CommentedKeys(keys: seq<string>): (lines: seq<string>)
    ensures |lines| == |keys| && forall i :: 0 <= i < |lines| ==> lines[i] == "#   " + keys[i]
  {
    seq(|keys|, i requires 0 <= i < |keys| => "#   " + keys[i])
  }

  const RUNTIME_TITLE := "# ─── Runtime Secrets" + " (サービスが Infisical から自動取得) ──────"

  function RuntimeCount(count: nat): string {
    "# 以下の " + Decimal(count) + " 件はサービス内で SecretManager 経由で取得:"
  }

  function RuntimeOpening(count: nat): seq<string> {
    [RUNTIME_TITLE, RuntimeCount(count)]
  }

  function RuntimeLines(keys: seq<string>): seq<string> {
    if keys == [] then [] else RuntimeOpening(|keys|) + CommentedKeys(keys) + [""]
  }

  function EnvLines(secrets: seq<RawSecret>, bootstrap: InfisicalBootstrap, config: EnvCliConfig,
      generatedAt: string): seq<string> {
    HeaderLines(config.name, bootstrap.environment, generatedAt)
    + Assignments(EffectiveAll(SecretMap(secrets), config.infraKeys))
    + BOOTSTRAP_HEADING
    + Assignments(BootstrapPairs(bootstrap))
    + [""]
    + RuntimeLines(RuntimeKeys(secrets, config.infraKeys))
  }

  // ---------------------------------------------------------------- printing, then parsing

  /** The variables a list of pairs stands for. */
  function Variables(pairs: seq<Pair>): map<string, string>
    decreases |pairs|
  {
    if pairs == [] then map[] else
    Variables(pairs[..|pairs| - 1])[pairs[|pairs| - 1].0 := pairs[|pairs| - 1].1]
  }

  lemma {:induction false} VariablesExactly(pairs: seq<Pair>, i: nat)
    requires DistinctKeys(pairs) && i < |pairs|
    ensures pairs[i].0 in Variables(pairs) && Variables(pairs)[pairs[i].0] == pairs[i].1
    decreases |pairs|
  {
    if i < |pairs| - 1 { VariablesExactly(pairs[..|pairs| - 1], i); }
  }

  lemma {:induction false} VariablesDomain(pairs: seq<Pair>, key: string)
    ensures key in Variables(pairs) <==> exists i :: 0 <= i < |pairs| && pairs[i].0 == key
    decreases |pairs|
  {
    if pairs != [] {
      var rest := pairs[..|pairs| - 1];
      VariablesDomain(rest, key);
      if i :| 0 <= i < |rest| && rest[i].0 == key { assert pairs[i].0 == key; }
      if i :| 0 <= i < |pairs| && pairs[i].0 == key {
        if i < |rest| { assert rest[i].0 == key; }
      }
    }
  }

  /** What the generated file is meant to define: the effective infra values, overlaid by the bootstrap entries. */
  function Intended(secrets: seq<RawSecret>, bootstrap: InfisicalBootstrap, config: EnvCliConfig): map<string, string> {
    Variables(EffectiveAll(SecretMap(secrets), config.infraKeys)) + Variables(BootstrapPairs(bootstrap))
  }

  function ReadBackAll(vars: map<string, string>): map<string, string> {
    map key | key in vars :: ReadBack(vars[key])
  }

  lemma ReadBackUpdate(vars: map<string, string>, more: map<string, string>, key: string, value: string)
    ensures vars + ReadBackAll(more[key := value]) == (vars + ReadBackAll(more))[key := ReadBack(value)]
  {
  }

  ghost predicate GoodKeys(pairs: seq<Pair>) { forall i :: 0 <= i < |pairs| ==> GoodKey(pairs[i].0) }

  lemma {:induction false} AssignmentsParse(vars: map<string, string>, pairs: seq<Pair>)
    requires GoodKeys(pairs)
    ensures AssignAll(vars, Assignments(pairs)) == vars + ReadBackAll(Variables(pairs))
    decreases |pairs|
  {
    if pairs != [] {
      var rest, key, value := pairs[..|pairs| - 1], pairs[|pairs| - 1].0, pairs[|pairs| - 1].1;
      AssignmentsParse(vars, rest);
      assert Assignments(pairs)[..|pairs| - 1] == Assignments(rest);
      assert GoodKey(pairs[|pairs| - 1].0);
      assert Assign(AssignAll(vars, Assignments(rest)), key + "=" + value)
             == AssignAll(vars, Assignments(rest))[key := ReadBack(value)] by {
        AssignmentLine(key, value);
      }
      ReadBackUpdate(vars, Variables(rest), key, value);
    }
  }

  /** Every piece of text that reaches the file is one line, and the keys can be carried by one. */
  ghost predicate Printable(secrets: seq<RawSecret>, bootstrap: InfisicalBootstrap, config: EnvCliConfig,
      generatedAt: string) {
    && SingleLine(config.name) && SingleLine(generatedAt)
    && (forall i :: 0 <= i < |config.infraKeys| ==> GoodKey(config.infraKeys[i].0) && SingleLine(config.infraKeys[i].1))
    && (forall i :: 0 <= i < |secrets| ==> SingleLine(secrets[i].secretKey))
    && (forall i :: 0 <= i < |secrets| && InObject(secrets[i].secretKey, config.infraKeys) ==>
          SingleLine(secrets[i].secretValue))
    && PrintableBootstrap(bootstrap)
  }

  ghost predicate PrintableBootstrap(bootstrap: InfisicalBootstrap) {
    && SingleLine(bootstrap.siteUrl) && SingleLine(bootstrap.projectId) && SingleLine(bootstrap.environment)
    && SingleLine(bootstrap.clientId) && SingleLine(bootstrap.clientSecret)
  }

  lemma {:induction false} SecretMapIsFromSecrets(secrets: seq<RawSecret>, key: string)
    requires key in SecretMap(secrets)
    ensures exists i :: 0 <= i < |secrets| && secrets[i] == RawSecret(key, SecretMap(secrets)[key])
    decreases |secrets|
  {
    var rest, last := secrets[..|secrets| - 1], secrets[|secrets| - 1];
    if last.secretKey == key {
      assert secrets[|secrets| - 1] == RawSecret(key, SecretMap(secrets)[key]);
    } else {
      SecretMapIsFromSecrets(rest, key);
      var i :| 0 <= i < |rest| && rest[i] == RawSecret(key, SecretMap(rest)[key]);
      assert secrets[i] == rest[i];
    }
  }

  lemma InfraLinesAreSingle(secrets: seq<RawSecret>, bootstrap: InfisicalBootstrap, config: EnvCliConfig,
      generatedAt: string)
    requires Printable(secrets, bootstrap, config, generatedAt)
    ensures AllSingleLine(Assignments(EffectiveAll(SecretMap(secrets), config.infraKeys)))
  {
    var pairs := config.infraKeys;
    forall i | 0 <= i < |pairs| ensures SingleLine(Effective(SecretMap(secrets), pairs[i]).1) {
      if pairs[i].0 in SecretMap(secrets) {
        SecretMapIsFromSecrets(secrets, pairs[i].0);
        var j :| 0 <= j < |secrets| && secrets[j] == RawSecret(pairs[i].0, SecretMap(secrets)[pairs[i].0]);
        assert InObject(secrets[j].secretKey, pairs);
      }
    }
  }

  ghost predicate Remarks(lines: seq<string>) { Comments(lines) && AllSingleLine(lines) }

  lemma RemarksJoin(a: seq<string>, b: seq<string>)
    requires Remarks(a) && Remarks(b)
    ensures Remarks(a + b)
  {
  }

  lemma HeadingsAreRemarks()
    ensures Remarks(INFRA_HEADING) && Remarks(BOOTSTRAP_HEADING) && Remarks([""])
  {
    assert SingleLine(INFRA_HEADING[0]) && SingleLine(INFRA_HEADING[1]);
    assert SingleLine(BOOTSTRAP_HEADING[0]) && SingleLine(BOOTSTRAP_HEADING[1]) && SingleLine("");
  }

  lemma TitleIsRemarks(name: string, environment: string, generatedAt: string)
    requires SingleLine(name) && SingleLine(environment) && SingleLine(generatedAt)
    ensures Remarks(TitleLines(name, environment, generatedAt))
  {
    var lines := TitleLines(name, environment, generatedAt);
    assert SingleLine(lines[0]) && SingleLine(lines[1]) && SingleLine(lines[2]) && SingleLine(lines[3]);
  }

  lemma NotesAreRemarks()
    ensures Remarks(NOTE_LINES)
  {
    assert SingleLine(NOTE_LINES[0]) && SingleLine(NOTE_LINES[1])
           && SingleLine(NOTE_LINES[2]) && SingleLine(NOTE_LINES[3]);
  }

  lemma HeaderIsRemarks(name: string, environment: string, generatedAt: string)
    requires SingleLine(name) && SingleLine(environment) && SingleLine(generatedAt)
    ensures Remarks(HeaderLines(name, environment, generatedAt))
  {
    TitleIsRemarks(name, environment, generatedAt);
    NotesAreRemarks();
    HeadingsAreRemarks();
    RemarksJoin(TitleLines(name, environment, generatedAt), NOTE_LINES);
    RemarksJoin(TitleLines(name, environment, generatedAt) + NOTE_LINES, INFRA_HEADING);
  }

  lemma KeysAreRemarks(keys: seq<string>)
    requires AllSingleLine(keys)
    ensures Remarks(CommentedKeys(keys))
  {
  }

  lemma TitleIsOneLine()
    ensures SingleLine(RUNTIME_TITLE) && Comments([RUNTIME_TITLE])
  {
  }

  lemma CountIsOneLine(count: nat)
    ensures SingleLine(RuntimeCount(count)) && Comments([RuntimeCount(count)])
  {
    DecimalIsSingleLine(count);
  }

  lemma OpeningIsRemarks(count: nat)
    ensures Remarks(RuntimeOpening(count))
  {
    TitleIsOneLine();
    CountIsOneLine(count);
    RemarksJoin([RUNTIME_TITLE], [RuntimeCount(count)]);
  }

  lemma RuntimeLinesAreRemarks(secrets: seq<RawSecret>, pairs: seq<Pair>)
    requires forall i :: 0 <= i < |secrets| ==> SingleLine(secrets[i].secretKey)
    ensures Remarks(RuntimeLines(RuntimeKeys(secrets, pairs)))
  {
    var keys := RuntimeKeys(secrets, pairs);
    forall i | 0 <= i < |keys| ensures SingleLine(keys[i]) { RuntimeKeysExactly(secrets, pairs, keys[i]); }
    KeysAreRemarks(keys);
    if keys != [] {
      var opening := RuntimeOpening(|keys|);
      OpeningIsRemarks(|keys|);
      HeadingsAreRemarks();
      RemarksJoin(opening, CommentedKeys(keys));
      RemarksJoin(opening + CommentedKeys(keys), [""]);
    }
  }

  lemma RemarksThenAssignments(vars: map<string, string>, remarks: seq<string>, pairs: seq<Pair>)
    requires Comments(remarks) && GoodKeys(pairs)
    ensures AssignAll(vars, remarks + Assignments(pairs)) == vars + ReadBackAll(Variables(pairs))
  {
    AssignAllInParts(vars, remarks, Assignments(pairs));
    CommentLines(vars, remarks);
    AssignmentsParse(vars, pairs);
  }

  lemma ReadBackOverlay(a: map<string, string>, b: map<string, string>)
    ensures ReadBackAll(a) + ReadBackAll(b) == ReadBackAll(a + b)
  {
  }

  /** A file of remarks around two groups of assignments. */
  lemma {:induction false} SectionsParse(a: seq<string>, infra: seq<Pair>, b: seq<string>, bootstrap: seq<Pair>,
      c: seq<string>)
    requires Comments(a) && Comments(b) && Comments(c) && GoodKeys(infra) && GoodKeys(bootstrap)
    ensures AssignAll(map[], (a + Assignments(infra)) + (b + Assignments(bootstrap)) + c)
         == ReadBackAll(Variables(infra) + Variables(bootstrap))
  {
    var x, y := a + Assignments(infra), b + Assignments(bootstrap);
    RemarksThenAssignments(map[], a, infra);
    RemarksThenAssignments(AssignAll(map[], x), b, bootstrap);
    AssignAllInParts(map[], x, y);
    AssignAllInParts(map[], x + y, c);
    CommentLines(AssignAll(map[], x + y), c);
    ReadBackOverlay(Variables(infra), Variables(bootstrap));
  }

  lemma {:induction false} SectionsReadBack(a: seq<string>, infra: seq<Pair>, b: seq<string>, bootstrap: seq<Pair>,
      c: seq<string>)
    requires Remarks(a) && Remarks(b) && Remarks(c) && c != [] && GoodKeys(infra) && GoodKeys(bootstrap)
    requires AllSingleLine(Assignments(infra)) && AllSingleLine(Assignments(bootstrap))
    ensures Parsed(Join(a + Assignments(infra) + b + Assignments(bootstrap) + c))
         == ReadBackAll(Variables(infra) + Variables(bootstrap))
  {
    var lines := a + Assignments(infra) + b + Assignments(bootstrap) + c;
    assert AllSingleLine(lines);
    SplitUndoesJoin(lines);
    assert lines == (a + Assignments(infra)) + (b + Assignments(bootstrap)) + c;
    SectionsParse(a, infra, b, bootstrap, c);
  }

  ghost predicate CarriedByLine(pair: Pair) { GoodKey(pair.0) && SingleLine(pair.1) }

  lemma AssignmentsAreSingle(pairs: seq<Pair>)
    requires forall i :: 0 <= i < |pairs| ==> CarriedByLine(pairs[i])
    ensures AllSingleLine(Assignments(pairs)) && GoodKeys(pairs)
  {
    forall i | 0 <= i < |pairs| ensures SingleLine(Assignments(pairs)[i]) && GoodKey(pairs[i].0) {
      assert CarriedByLine(pairs[i]);
    }
  }

  lemma CredentialLinesAreSingle(bootstrap: InfisicalBootstrap)
    requires PrintableBootstrap(bootstrap)
    ensures forall i :: 0 <= i < |CredentialPairs(bootstrap)| ==> CarriedByLine(CredentialPairs(bootstrap)[i])
    ensures AllSingleLine(Assignments(CredentialPairs(bootstrap))) && GoodKeys(CredentialPairs(bootstrap))
  {
    assert GoodKey("INFISICAL_SITE_URL") && GoodKey("INFISICAL_PROJECT_ID") && GoodKey("INFISICAL_ENVIRONMENT")
        && GoodKey("INFISICAL_CLIENT_ID") && GoodKey("INFISICAL_CLIENT_SECRET");
    AssignmentsAreSingle(CredentialPairs(bootstrap));
  }

  lemma BootstrapLinesAreSingle(bootstrap: InfisicalBootstrap)
    requires PrintableBootstrap(bootstrap)
    ensures AllSingleLine(Assignments(BootstrapPairs(bootstrap))) && GoodKeys(BootstrapPairs(bootstrap))
  {
    var first := ("SECRETS_PROVIDER", "infisical");
    assert CarriedByLine(first);
    CredentialLinesAreSingle(bootstrap);
    forall i | 0 <= i < |BootstrapPairs(bootstrap)| ensures CarriedByLine(BootstrapPairs(bootstrap)[i]) {
      if i > 0 { assert BootstrapPairs(bootstrap)[i] == CredentialPairs(bootstrap)[i - 1]; }
    }
    AssignmentsAreSingle(BootstrapPairs(bootstrap));
  }

  /** The file defines what it is meant to define, with each value read back; its comments define nothing. */
  lemma GeneratedFileParses(secrets: seq<RawSecret>, bootstrap: InfisicalBootstrap, config: EnvCliConfig,
      generatedAt: string)
    requires Printable(secrets, bootstrap, config, generatedAt)
    ensures Parsed(Join(EnvLines(secrets, bootstrap, config, generatedAt)))
            == ReadBackAll(Intended(secrets, bootstrap, config))
  {
    var infra := EffectiveAll(SecretMap(secrets), config.infraKeys);
    var header := HeaderLines(config.name, bootstrap.environment, generatedAt);
    var runtime := RuntimeLines(RuntimeKeys(secrets, config.infraKeys));
    InfraLinesAreSingle(secrets, bootstrap, config, generatedAt);
    RuntimeLinesAreRemarks(secrets, config.infraKeys);
    HeaderIsRemarks(config.name, bootstrap.environment, generatedAt);
    BootstrapLinesAreSingle(bootstrap);
    HeadingsAreRemarks();
    RemarksJoin([""], runtime);
    SectionsReadBack(header, infra, BOOTSTRAP_HEADING, BootstrapPairs(bootstrap), [""] + runtime);
    assert EnvLines(secrets, bootstrap, config, generatedAt)
        == header + Assignments(infra) + BOOTSTRAP_HEADING + Assignments(BootstrapPairs(bootstrap)) + ([""] + runtime);
  }

  /**
   For single-line input, parsing the generated file gives the intended variables exactly when every value is clean.
   */
  lemma ParsesToIntendedExactly(secrets: seq<RawSecret>, bootstrap: InfisicalBootstrap, config: EnvCliConfig,
      generatedAt: string)
    requires Printable(secrets, bootstrap, config, generatedAt)
    ensures
      var intended := Intended(secrets, bootstrap, config);
      Parsed(Join(EnvLines(secrets, bootstrap, config, generatedAt))) == intended <==>
        forall key :: key in intended ==> Clean(intended[key])
  {
    var intended := Intended(secrets, bootstrap, config);
    GeneratedFileParses(secrets, bootstrap, config, generatedAt);
    forall key | key in intended ensures ReadBackAll(intended)[key] == intended[key] <==> Clean(intended[key]) {
      ReadBackExactly(intended[key]);
    }
    assert ReadBackAll(intended) == intended
           <==> forall key :: key in intended ==> ReadBackAll(intended)[key] == intended[key];
  }

  lemma ReadBackIsSingleLine(value: string)
    requires SingleLine(value)
    ensures SingleLine(ReadBack(value))
  {
    var before, after := TrimStrips(value);
    assert forall c :: c in Trim(value) ==> c in value;
  }

  lemma AssignmentIsSingleLine(line: string)
    requires SingleLine(line) && Assignment(line).Some?
    ensures SingleLine(Assignment(line).value.1)
  {
    var before, after := TrimStrips(line);
    var trimmed := Trim(line);
    assert forall c :: c in trimmed ==> c in line;
    ReadBackIsSingleLine(trimmed[IndexOf(trimmed, '=', 0).value + 1..]);
  }

  lemma {:induction false} LinesGiveSingleLines(lines: seq<string>, key: string)
    requires AllSingleLine(lines) && key in AssignAll(map[], lines)
    ensures SingleLine(AssignAll(map[], lines)[key])
    decreases |lines|
  {
    var last := lines[|lines| - 1];
    if Assignment(last).Some? && Assignment(last).value.0 == key != PROTO {
      AssignmentIsSingleLine(last);
    } else {
      LinesGiveSingleLines(lines[..|lines| - 1], key);
    }
  }

  /** No file whatsoever gives a variable a value with a line break, so such a value never reads back. */
  lemma LineBreaksNeverReadBack(content: string, vars: map<string, string>, key: string)
    requires key in vars && !SingleLine(vars[key])
    ensures Parsed(content) != vars
  {
    if Parsed(content) == vars { LinesGiveSingleLines(Split(content), key); }
  }

  const BOOTSTRAP_KEYS := {"SECRETS_PROVIDER", "INFISICAL_SITE_URL", "INFISICAL_PROJECT_ID", "INFISICAL_ENVIRONMENT",
                           "INFISICAL_CLIENT_ID", "INFISICAL_CLIENT_SECRET"}

  /**
   A secret that is not an infra key is never assigned; where it bears a bootstrap name, its value still is not the one
   assigned.
   */
  lemma RuntimeSecretsAreNotAssigned(secrets: seq<RawSecret>, bootstrap: InfisicalBootstrap, config: EnvCliConfig,
                                     generatedAt: string, i: nat)
    requires Printable(secrets, bootstrap, config, generatedAt) && i < |secrets|
    requires !InObject(secrets[i].secretKey, config.infraKeys)
    ensures
      var key, parsed := secrets[i].secretKey, Parsed(Join(EnvLines(secrets, bootstrap, config, generatedAt)));
      && (key in parsed <==> key in BOOTSTRAP_KEYS)
      && (key in parsed ==>
            key in Variables(BootstrapPairs(bootstrap))
            && parsed[key] == ReadBack(Variables(BootstrapPairs(bootstrap))[key]))
  {
    var key := secrets[i].secretKey;
    GeneratedFileParses(secrets, bootstrap, config, generatedAt);
    VariablesDomain(EffectiveAll(SecretMap(secrets), config.infraKeys), key);
    BootstrapDomain(bootstrap);
  }

  lemma BootstrapDomain(bootstrap: InfisicalBootstrap)
    ensures Variables(BootstrapPairs(bootstrap)).Keys == BOOTSTRAP_KEYS
  {
    var pairs := BootstrapPairs(bootstrap);
    forall key ensures key in Variables(pairs) <==> key in BOOTSTRAP_KEYS {
      VariablesDomain(pairs, key);
      if key in BOOTSTRAP_KEYS {
        var k := if key == "SECRETS_PROVIDER" then 0 else if key == "INFISICAL_SITE_URL" then 1
                 else if key == "INFISICAL_PROJECT_ID" then 2 else if key == "INFISICAL_ENVIRONMENT" then 3
                 else if key == "INFISICAL_CLIENT_ID" then 4 else 5;
        assert pairs[k].0 == key;
      }
    }
  }

  /** Each bootstrap entry stands for its own value. */
  lemma BootstrapValues(secrets: seq<RawSecret>, bootstrap: InfisicalBootstrap, config: EnvCliConfig)
    ensures
      var intended := Intended(secrets, bootstrap, config);
      && BOOTSTRAP_KEYS <= intended.Keys && intended["SECRETS_PROVIDER"] == "infisical"
      && intended["INFISICAL_SITE_URL"] == bootstrap.siteUrl
      && intended["INFISICAL_PROJECT_ID"] == bootstrap.projectId
      && intended["INFISICAL_ENVIRONMENT"] == bootstrap.environment
      && intended["INFISICAL_CLIENT_ID"] == bootstrap.clientId
      && intended["INFISICAL_CLIENT_SECRET"] == bootstrap.clientSecret
  {
    var pairs := BootstrapPairs(bootstrap);
    BootstrapDomain(bootstrap);
    BootstrapKeysDiffer(bootstrap);
    VariablesExactly(pairs, 0);
    VariablesExactly(pairs, 1);
    VariablesExactly(pairs, 2);
    VariablesExactly(pairs, 3);
    VariablesExactly(pairs, 4);
    VariablesExactly(pairs, 5);
  }

  lemma BootstrapKeysDiffer(bootstrap: InfisicalBootstrap)
    ensures DistinctKeys(BootstrapPairs(bootstrap))
  {
  }

  ghost predicate IsLastSecret(secrets: seq<RawSecret>, key: string, j: int) {
    0 <= j < |secrets| && secrets[j].secretKey == key && forall k :: j < k < |secrets| ==> secrets[k].secretKey != key
  }

  /** An infra key stands for its last secret, or its default without one, unless it is one of the bootstrap keys. */
  lemma InfraValues(secrets: seq<RawSecret>, bootstrap: InfisicalBootstrap, config: EnvCliConfig, i: nat)
    requires DistinctKeys(config.infraKeys) && i < |config.infraKeys| && config.infraKeys[i].0 !in BOOTSTRAP_KEYS
    ensures
      var (key, byDefault), intended := config.infraKeys[i], Intended(secrets, bootstrap, config);
      && key in intended
      && (forall j :: IsLastSecret(secrets, key, j) ==> intended[key] == secrets[j].secretValue)
      && ((forall j :: 0 <= j < |secrets| ==> secrets[j].secretKey != key) ==> intended[key] == byDefault)
  {
    var key := config.infraKeys[i].0;
    BootstrapDomain(bootstrap);
    VariablesExactly(EffectiveAll(SecretMap(secrets), config.infraKeys), i);
    forall j | IsLastSecret(secrets, key, j)
      ensures key in SecretMap(secrets) && SecretMap(secrets)[key] == secrets[j].secretValue
    {
      LastSecretWins(secrets, j);
    }
    if key in SecretMap(secrets) { SecretMapIsFromSecrets(secrets, key); }
  }

  /** The loop that fills `secretMap`. */
  method CollectSecrets(secrets: seq<RawSecret>) returns (secretMap: map<string, string>)
    ensures secretMap == SecretMap(secrets)
  {
    secretMap := map[];
    for k := 0 to |secrets|
      invariant secretMap == SecretMap(secrets[..k])
    {
      assert secrets[..k + 1][..k] == secrets[..k];
      secretMap := secretMap[secrets[k].secretKey := secrets[k].secretValue];
    }
    assert secrets[..|secrets|] == secrets;
  }

  function Provided(secretMap: map<string, string>, infraKeys: seq<Pair>, k: nat): set<nat>
    requires k <= |infraKeys|
  {
    set i: nat | i < k && infraKeys[i].0 in secretMap
  }

  lemma ProvidedNext(secretMap: map<string, string>, infraKeys: seq<Pair>, k: nat)
    requires k < |infraKeys|
    ensures |Provided(secretMap, infraKeys, k + 1)|
         == |Provided(secretMap, infraKeys, k)| + if infraKeys[k].0 in secretMap then 1 else 0
  {
    assert Provided(secretMap, infraKeys, k + 1)
        == Provided(secretMap, infraKeys, k) + if infraKeys[k].0 in secretMap then {k} else {};
  }

  /** The loop over the infra keys. */
  method InfraLines(secretMap: map<string, string>, infraKeys: seq<Pair>)
    returns (lines: seq<string>, fromInfisical: nat)
    ensures lines == Assignments(EffectiveAll(secretMap, infraKeys))
    ensures fromInfisical == |Provided(secretMap, infraKeys, |infraKeys|)| <= |infraKeys|
  {
    lines, fromInfisical := [], 0;
    for k := 0 to |infraKeys|
      invariant |lines| == k
        invariant forall i :: 0 <= i < k ==> lines[i] == infraKeys[i].0 + "=" + Effective(secretMap, infraKeys[i]).1
      invariant fromInfisical == |Provided(secretMap, infraKeys, k)| <= k
    {
      var (key, defaultValue) := infraKeys[k];
      var value := if key in secretMap then secretMap[key] else defaultValue;
      lines := lines + [key + "=" + value];
      ProvidedNext(secretMap, infraKeys, k);
      if key in secretMap { fromInfisical := fromInfisical + 1; }
    }
  }

  method BuildDotenv(secrets: seq<RawSecret>, bootstrap: InfisicalBootstrap, config: EnvCliConfig, generatedAt: string)
    returns (result: EnvGeneratorResult)
    ensures result.content == Join(EnvLines(secrets, bootstrap, config, generatedAt))
    ensures Printable(secrets, bootstrap, config, generatedAt) ==>
      Parsed(result.content) == ReadBackAll(Intended(secrets, bootstrap, config))
    ensures result.infraFromInfisical == |Provided(SecretMap(secrets), config.infraKeys, |config.infraKeys|)|
    ensures result.infraFromInfisical + result.infraFromDefaults == |config.infraKeys|
    ensures result.runtimeCount == |RuntimeKeys(secrets, config.infraKeys)|
  {
    var secretMap := CollectSecrets(secrets);
    var infraKeys := config.infraKeys;
    var lines := HeaderLines(config.name, bootstrap.environment, generatedAt);
    var infraLines, infraFromInfisical := InfraLines(secretMap, infraKeys);
    lines := lines + infraLines + BOOTSTRAP_HEADING + Assignments(BootstrapPairs(bootstrap)) + [""];
    var runtimeKeys := CollectRuntimeKeys(secrets, infraKeys);
    lines := lines + RuntimeLines(runtimeKeys);
    if Printable(secrets, bootstrap, config, generatedAt) {
      GeneratedFileParses(secrets, bootstrap, config, generatedAt);
    }
    result := EnvGeneratorResult(Join(lines), infraFromInfisical, |infraKeys| - infraFromInfisical, |runtimeKeys|);
  }

  method CollectRuntimeKeys(secrets: seq<RawSecret>, infraKeys: seq<Pair>) returns (runtimeKeys: seq<string>)
    ensures runtimeKeys == RuntimeKeys(secrets, infraKeys)
  {
    runtimeKeys := [];
    for k := 0 to |secrets|
      invariant runtimeKeys == RuntimeKeys(secrets[..k], infraKeys)
    {
      assert secrets[..k + 1][..k] == secrets[..k];
      if !InObject(secrets[k].secretKey, infraKeys) { runtimeKeys := runtimeKeys + [secrets[k].secretKey]; }
    }
    assert secrets[..|secrets|] == secrets;
  }

  /** Runtime keys come in the order of their secrets. */
  lemma {:induction false} RuntimeKeysInOrder(a: seq<RawSecret>, b: seq<RawSecret>, pairs: seq<Pair>)
    ensures RuntimeKeys(a + b, pairs) == RuntimeKeys(a, pairs) + RuntimeKeys(b, pairs)
    decreases |b|
  {
    if b == [] {
      assert a + b == a;
    } else {
      assert (a + b)[..|a + b| - 1] == a + b[..|b| - 1];
      RuntimeKeysInOrder(a, b[..|b| - 1], pairs);
    }
  }

  /** The line of an infra key: its last secret, or its default without one. */
  ghost predicate PrintsInfra(line: string, secrets: seq<RawSecret>, pair: Pair) {
    && (forall j :: IsLastSecret(secrets, pair.0, j) ==> line == pair.0 + "=" + secrets[j].secretValue)
    && ((forall j :: 0 <= j < |secrets| ==> secrets[j].secretKey != pair.0) ==> line == pair.0 + "=" + pair.1)
  }

  lemma EffectiveIsPrinted(secrets: seq<RawSecret>, pair: Pair)
    ensures PrintsInfra(pair.0 + "=" + Effective(SecretMap(secrets), pair).1, secrets, pair)
  {
    forall j | IsLastSecret(secrets, pair.0, j)
      ensures pair.0 in SecretMap(secrets) && SecretMap(secrets)[pair.0] == secrets[j].secretValue
    {
      LastSecretWins(secrets, j);
    }
    if pair.0 in SecretMap(secrets) { SecretMapIsFromSecrets(secrets, pair.0); }
  }

  /** The lines that print the bootstrap entries. */
  ghost function BootstrapText(b: InfisicalBootstrap): seq<string> {
    ["SECRETS_PROVIDER=infisical", "INFISICAL_SITE_URL=" + b.siteUrl, "INFISICAL_PROJECT_ID=" + b.projectId,
     "INFISICAL_ENVIRONMENT=" + b.environment, "INFISICAL_CLIENT_ID=" + b.clientId,
     "INFISICAL_CLIENT_SECRET=" + b.clientSecret]
  }

  lemma BootstrapIsPrinted(bootstrap: InfisicalBootstrap)
    ensures Assignments(BootstrapPairs(bootstrap)) == BootstrapText(bootstrap)
  {
    var lines := Assignments(BootstrapPairs(bootstrap));
    assert lines[0] == "SECRETS_PROVIDER" + "=" + "infisical" == "SECRETS_PROVIDER=infisical";
    assert forall i :: 0 <= i < 6 ==> lines[i] == BootstrapText(bootstrap)[i];
  }

  /** The commented lines on the runtime keys: none without any, and otherwise one each, in order. */
  ghost predicate ListsKeys(lines: seq<string>, keys: seq<string>) {
    if keys == [] then lines == [] else
    |lines| == |keys| + 3 && forall k :: 0 <= k < |keys| ==> lines[k + 2] == "#   " + keys[k]
  }

  /** The file section by section: a header, the infra keys, a heading, the bootstrap entries and the runtime keys. */
  lemma FileLayout(secrets: seq<RawSecret>, bootstrap: InfisicalBootstrap, config: EnvCliConfig, generatedAt: string)
    returns (header: seq<string>, infra: seq<string>, runtime: seq<string>)
    ensures EnvLines(secrets, bootstrap, config, generatedAt)
            == header + infra + BOOTSTRAP_HEADING + BootstrapText(bootstrap) + [""] + runtime
    ensures header == HeaderLines(config.name, bootstrap.environment, generatedAt)
    ensures |infra| == |config.infraKeys|
    ensures forall i :: 0 <= i < |infra| ==> PrintsInfra(infra[i], secrets, config.infraKeys[i])
    ensures ListsKeys(runtime, RuntimeKeys(secrets, config.infraKeys))
  {
    header := HeaderLines(config.name, bootstrap.environment, generatedAt);
    infra := Assignments(EffectiveAll(SecretMap(secrets), config.infraKeys));
    runtime := RuntimeLines(RuntimeKeys(secrets, config.infraKeys));
    BootstrapIsPrinted(bootstrap);
    forall i | 0 <= i < |infra| ensures PrintsInfra(infra[i], secrets, config.infraKeys[i]) {
      EffectiveIsPrinted(secrets, config.infraKeys[i]);
    }
  }

  // ---------------------------------------------------------------- the bootstrap file

  datatype Defaults = Defaults(siteUrl: string, environment: string)

  function Lookup(vars: map<string, string>, key: string): string {
    if key in vars then vars[key] else ""
  }

  /** The bootstrap a set of variables stands for; an absent and an empty variable are the same. */
  function FromVariables(vars: map<string, string>, defaults: Defaults): Option<InfisicalBootstrap> {
    var siteUrl, environment := Lookup(vars, "INFISICAL_SITE_URL"), Lookup(vars, "INFISICAL_ENVIRONMENT");
    var projectId := Lookup(vars, "INFISICAL_PROJECT_ID");
    var clientId, clientSecret := Lookup(vars, "INFISICAL_CLIENT_ID"), Lookup(vars, "INFISICAL_CLIENT_SECRET");
    if projectId == "" || clientId == "" || clientSecret == "" then None else
    Some(InfisicalBootstrap(if siteUrl == "" then defaults.siteUrl else siteUrl, projectId,
                            if environment == "" then defaults.environment else environment, clientId, clientSecret))
  }

  /** The variable is there and not empty. */
  ghost predicate Gives(vars: map<string, string>, key: string, value: string) {
    key in vars && vars[key] == value && value != ""
  }

  ghost predicate GivesOr(vars: map<string, string>, key: string, byDefault: string, value: string) {
    Gives(vars, key, value) || (value == byDefault && forall other :: !Gives(vars, key, other))
  }

  /** The variables give this bootstrap: the three credentials themselves, the rest by themselves or by default. */
  ghost predicate Provides(vars: map<string, string>, defaults: Defaults, b: InfisicalBootstrap) {
    && Gives(vars, "INFISICAL_PROJECT_ID", b.projectId) && Gives(vars, "INFISICAL_CLIENT_ID", b.clientId)
    && Gives(vars, "INFISICAL_CLIENT_SECRET", b.clientSecret)
    && GivesOr(vars, "INFISICAL_SITE_URL", defaults.siteUrl, b.siteUrl)
    && GivesOr(vars, "INFISICAL_ENVIRONMENT", defaults.environment, b.environment)
  }

  lemma GivesExactly(vars: map<string, string>, key: string, byDefault: string, value: string)
    ensures Gives(vars, key, value) <==> Lookup(vars, key) == value != ""
    ensures GivesOr(vars, key, byDefault, value)
            <==> value == if Lookup(vars, key) == "" then byDefault else Lookup(vars, key)
  {
    if Lookup(vars, key) != "" { assert Gives(vars, key, Lookup(vars, key)); }
  }

  lemma ProvidesExactly(vars: map<string, string>, defaults: Defaults, b: InfisicalBootstrap)
    ensures FromVariables(vars, defaults) == Some(b) <==> Provides(vars, defaults, b)
  {
    GivesExactly(vars, "INFISICAL_PROJECT_ID", "", b.projectId);
    GivesExactly(vars, "INFISICAL_CLIENT_ID", "", b.clientId);
    GivesExactly(vars, "INFISICAL_CLIENT_SECRET", "", b.clientSecret);
    GivesExactly(vars, "INFISICAL_SITE_URL", defaults.siteUrl, b.siteUrl);
    GivesExactly(vars, "INFISICAL_ENVIRONMENT", defaults.environment, b.environment);
  }

  /** The file gives the bootstrap, or there is none that it gives, and the environment does. */
  ghost predicate ProvidedBy(file: Option<string>, defaults: Defaults, environment: map<string, string>,
      b: InfisicalBootstrap) {
    || (file.Some? && Provides(Parsed(file.value), defaults, b))
    || (&& (file.Some? ==> forall other :: !Provides(Parsed(file.value), defaults, other))
        && Provides(environment, defaults, b))
  }

  lemma LoadedExactly(file: Option<string>, defaults: Defaults, environment: map<string, string>, b: InfisicalBootstrap)
    ensures Loaded(file, defaults, environment) == Some(b) <==> ProvidedBy(file, defaults, environment, b)
  {
    ProvidesExactly(environment, defaults, b);
    if file.Some? {
      var vars := Parsed(file.value);
      forall other ensures FromVariables(vars, defaults) == Some(other) <==> Provides(vars, defaults, other) {
        ProvidesExactly(vars, defaults, other);
      }
    }
  }

  function Loaded(file: Option<string>, defaults: Defaults,
      environment: map<string, string>): Option<InfisicalBootstrap> {
    var fromFile := if file.Some? then FromVariables(Parsed(file.value), defaults) else None;
    if fromFile.Some? then fromFile else FromVariables(environment, defaults)
  }

  const SECRETS_NOTES :=
    ["# ─── Infisical Bootstrap" + " Credentials " + SINGLE + "───",
     "# env-cli setup で自動生成。" + "このファイルは .gitignore に含めること。",
     "# " + SINGLE + SINGLE + "─────────────────",
     ""]

  function SecretsLines(bootstrap: InfisicalBootstrap): seq<string> {
    SECRETS_NOTES + Assignments(CredentialPairs(bootstrap)) + [""]
  }

  lemma SecretsNotesAreRemarks()
    ensures Remarks(SECRETS_NOTES)
  {
    assert SingleLine(SECRETS_NOTES[0]) && SingleLine(SECRETS_NOTES[1])
           && SingleLine(SECRETS_NOTES[2]) && SingleLine(SECRETS_NOTES[3]);
  }

  lemma SavedFileParses(bootstrap: InfisicalBootstrap)
    requires PrintableBootstrap(bootstrap)
    ensures Parsed(Join(SecretsLines(bootstrap))) == ReadBackAll(Variables(CredentialPairs(bootstrap)))
  {
    CredentialLinesAreSingle(bootstrap);
    SecretsNotesAreRemarks();
    HeadingsAreRemarks();
    SectionsReadBack(SECRETS_NOTES, CredentialPairs(bootstrap), [], [], [""]);
    assert SECRETS_NOTES + Assignments(CredentialPairs(bootstrap)) + [] + Assignments([]) + [""]
           == SecretsLines(bootstrap);
    assert Variables(CredentialPairs(bootstrap)) + Variables([]) == Variables(CredentialPairs(bootstrap));
  }

  /**
   Each of the five values is printed and parsed; the file as a whole counts only if the three credentials survive.
   */
  lemma SavedBootstrapLoadsAs(b: InfisicalBootstrap, defaults: Defaults, environment: map<string, string>)
    requires PrintableBootstrap(b)
    ensures
      var readBack := InfisicalBootstrap(
        if ReadBack(b.siteUrl) == "" then defaults.siteUrl else ReadBack(b.siteUrl), ReadBack(b.projectId),
        if ReadBack(b.environment) == "" then defaults.environment else ReadBack(b.environment),
        ReadBack(b.clientId), ReadBack(b.clientSecret));
      Loaded(Some(Join(SecretsLines(b))), defaults, environment) ==
        if readBack.projectId == "" || readBack.clientId == "" || readBack.clientSecret == ""
        then FromVariables(environment, defaults) else Some(readBack)
  {
    var pairs := CredentialPairs(b);
    SavedFileParses(b);
    assert DistinctKeys(pairs);
    VariablesExactly(pairs, 0);
    VariablesExactly(pairs, 1);
    VariablesExactly(pairs, 2);
    VariablesExactly(pairs, 3);
    VariablesExactly(pairs, 4);
  }

  ghost predicate CleanBootstrap(b: InfisicalBootstrap) {
    Clean(b.siteUrl) && Clean(b.projectId) && Clean(b.environment) && Clean(b.clientId) && Clean(b.clientSecret)
  }

  /** With no other source for them, saved nonempty single-line values load unchanged exactly when they are clean. */
  lemma SavedBootstrapLoadsExactly(b: InfisicalBootstrap, defaults: Defaults)
    requires PrintableBootstrap(b) && Clean(defaults.siteUrl) && Clean(defaults.environment)
    requires b.siteUrl != "" && b.projectId != "" && b.environment != "" && b.clientId != "" && b.clientSecret != ""
    ensures Loaded(Some(Join(SecretsLines(b))), defaults, map[]) == Some(b) <==> CleanBootstrap(b)
  {
    SavedBootstrapLoadsAs(b, defaults, map[]);
    ReadBackExactly(b.siteUrl);
    ReadBackExactly(b.projectId);
    ReadBackExactly(b.environment);
    ReadBackExactly(b.clientId);
    ReadBackExactly(b.clientSecret);
  }

  /** `.env.secrets` on disk. */
  class SecretsFile {
    var content: Option<string>

    constructor ()
      ensures content == None
    {
      content := None;
    }

    method SaveBootstrap(bootstrap: InfisicalBootstrap)
      modifies this
      ensures content == Some(Join(SecretsLines(bootstrap)))
      ensures PrintableBootstrap(bootstrap) ==>
        Parsed(content.value) == ReadBackAll(Variables(CredentialPairs(bootstrap)))
    {
      content := Some(Join(SecretsLines(bootstrap)));
      if PrintableBootstrap(bootstrap) { SavedFileParses(bootstrap); }
    }

    method LoadBootstrap(defaults: Defaults, environment: map<string, string>)
      returns (bootstrap: Option<InfisicalBootstrap>)
      ensures bootstrap == Loaded(content, defaults, environment)
      ensures forall b :: bootstrap == Some(b) <==> ProvidedBy(content, defaults, environment, b)
    {
      forall b
        ensures Loaded(content, defaults, environment) == Some(b) <==> ProvidedBy(content, defaults, environment, b)
      {
        LoadedExactly(content, defaults, environment, b);
      }
      if content.Some? {
        var vars := ParseEnvFile(content.value);
        bootstrap := FromVariables(vars, defaults);
        if bootstrap.Some? { return; }
      }
      bootstrap := FromVariables(environment, defaults);
    }
  }
}
