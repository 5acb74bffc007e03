/**
 * The .env file handling of src/environment.go. The file is a sequence of
 * lines (reading and writing the file are left out), and the process
 * environment a map from names to values.
 *
 * LoadDotEnv reads assignments `key=value` into the environment; UpdateEnvVar
 * rewrites the first line that assigns a key, or appends one.
 */
module Environment {
  import opened Wrappers
  import opened Sequences
  import opened Strings

  /** What one line of a .env file contributes. */
  datatype Entry = Skipped | Assignment(key: string, value: string) | Malformed

  /** t splits at i, its first '=', into key and value as LoadDotEnv trims them. */
  ghost predicate SplitsAt(t: string, i: nat, key: string, value: string)
  {
    && i < |t| && t[i] == '=' && '=' !in t[..i]
    && key == TrimSpace(t[..i])
    && value == Trim(TrimSpace(t[i + 1..]), Quotes)
  }

  /** The assignment a trimmed line t makes when its first '=' is at i. */
  function SplitAt(t: string, i: nat): (e: Entry)
    requires i < |t| && t[i] == '=' && '=' !in t[..i]
    ensures e.Assignment? && SplitsAt(t, i, e.key, e.value)
    ensures TrimSpace(e.key) == e.key && '=' !in e.key
    ensures e.value == [] || (!InCut(e.value[0], Quotes) && !InCut(e.value[|e.value| - 1], Quotes))
  {
    var key := TrimSpace(t[..i]);
    TrimTwice(t[..i], Spaces);
    assert '=' !in key by {
      if '=' in key {
        TrimDrawsFrom(t[..i], Spaces, '=');
      }
    }
    Assignment(key, Trim(TrimSpace(t[i + 1..]), Quotes))
  }

  /**
   * How LoadDotEnv reads one line: blank and comment lines are skipped, a line
   * without '=' is malformed, any other line splits at its first '='.
   */
  function ParseLine(line: string): (e: Entry)
    ensures e.Skipped? <==> TrimSpace(line) == [] || TrimSpace(line)[0] == '#'
    ensures e.Malformed? <==> !e.Skipped? && '=' !in TrimSpace(line)
    ensures e.Assignment? ==> TrimSpace(e.key) == e.key && '=' !in e.key
    ensures e.Assignment? ==>
      e.value == [] || (!InCut(e.value[0], Quotes) && !InCut(e.value[|e.value| - 1], Quotes))
  {
    var t := TrimSpace(line);
    if t == [] || t[0] == '#' then Skipped
    else match IndexOf(t, '=')
      case None => Malformed
      case Some(i) => SplitAt(t, i)
  }

  /** An assignment splits the trimmed line at its first '=', so the value may itself contain '='. */
  lemma SplitsAtFirstEquals(line: string)
    requires ParseLine(line).Assignment?
    ensures exists i: nat :: SplitsAt(TrimSpace(line), i, ParseLine(line).key, ParseLine(line).value)
  {
    var i := IndexOf(TrimSpace(line), '=').value;
    assert SplitsAt(TrimSpace(line), i, ParseLine(line).key, ParseLine(line).value);
  }

  /** os.Setenv accepts a non-empty name without '=' or NUL, and a value without NUL. */
  predicate Settable(key: string, value: string)
  {
    key != [] && '=' !in key && '\0' !in key && '\0' !in value
  }

  /**
   * os.Setenv: sets key to value, or, for a name or value it refuses, leaves the
   * environment as it is (LoadDotEnv ignores the error).
   */
  function Setenv(vars: map<string, string>, key: string, value: string): (r: map<string, string>)
    ensures Settable(key, value) ==> key in r && r[key] == value
    ensures !Settable(key, value) ==> r == vars
    ensures forall k | k != key :: (k in r <==> k in vars) && (k in r ==> r[k] == vars[k])
  {
    if Settable(key, value) then vars[key := value] else vars
  }

  /** The environment after loading, and the number of assignments read or the count at which it stopped. */
  datatype LoadOutcome =
    | Loaded(vars: map<string, string>, total: nat)
    | Halted(vars: map<string, string>, line: nat)

  /** What each line contributes. */
  function Entries(lines: seq<string>): (es: seq<Entry>)
    ensures |es| == |lines| && forall i | 0 <= i < |lines| :: es[i] == ParseLine(lines[i])
  {
    seq(|lines|, i requires 0 <= i < |lines| => ParseLine(lines[i]))
  }

  /**
   * LoadDotEnv's effect of the entries that remain, from environment vars with
   * count assignments already read: each assignment is applied in turn, and the
   * first malformed line stops the load with the variables set so far.
   */
  function LoadEntries(es: seq<Entry>, vars: map<string, string>, count: nat): (o: LoadOutcome)
    ensures o.Loaded? <==> Malformed !in es
    ensures o.Loaded? ==> o.total >= count
    ensures o.Halted? ==> o.line >= count
  {
    if es == [] then Loaded(vars, count)
    else match es[0]
      case Skipped => LoadEntries(es[1..], vars, count)
      case Malformed => Halted(vars, count)
      case Assignment(key, value) => LoadEntries(es[1..], Setenv(vars, key, value), count + 1)
  }

  /** The effect of loading a whole file into environment vars. */
  function Load(lines: seq<string>, vars: map<string, string>): (o: LoadOutcome)
    ensures o.Loaded? <==> forall i | 0 <= i < |lines| :: !ParseLine(lines[i]).Malformed?
  {
    LoadEntries(Entries(lines), vars, 0)
  }

  /** The error LoadDotEnv returns for a malformed line. */
  function InvalidLineMessage(line: nat): (m: string)
    ensures |m| > 17 && m[..5] == "Line " && m[|m| - 12..] == " is invalid."
    ensures DecimalValue(m[5..|m| - 12]) == line
    ensures forall i | 5 <= i < |m| - 12 :: '0' <= m[i] <= '9'
    ensures m[5] != '0' || |m| == 18
  {
    var numeral := DecimalString(line);
    DecimalRoundTrip(line);
    var m := "Line " + numeral + " is invalid.";
    assert m[5..|m| - 12] == numeral;
    m
  }

  /**
   * LoadDotEnv: reads the lines into the environment and returns the new
   * environment and the error, if a line is malformed.
   */
  method LoadDotEnv(lines: seq<string>, environ: map<string, string>)
    returns (vars: map<string, string>, err: Option<string>)
    ensures var o := Load(lines, environ);
      && vars == o.vars
      && (err == None <==> o.Loaded?)
      && (o.Halted? ==> err == Some(InvalidLineMessage(o.line)))
  {
    ghost var es := Entries(lines);
    vars := environ;
    var lineCount := 0;
    for i := 0 to |lines|
      invariant LoadEntries(es[i..], vars, lineCount) == Load(lines, environ)
    {
      assert es[i..][0] == ParseLine(lines[i]) && es[i..][1..] == es[i + 1..];
      var line := TrimSpace(lines[i]);
      if line == [] || line[0] == '#' {
        assert ParseLine(lines[i]) == Skipped;
        continue;
      }
      var eq := IndexOf(line, '=');
      if eq.None? {
        assert ParseLine(lines[i]) == Malformed;
        return vars, Some(InvalidLineMessage(lineCount));
      }
      var key := TrimSpace(line[..eq.value]);
      var value := Trim(TrimSpace(line[eq.value + 1..]), Quotes);
      assert ParseLine(lines[i]) == Assignment(key, value);
      vars := Setenv(vars, key, value);
      lineCount := lineCount + 1;
    }
    assert es[|lines|..] == [];
    return vars, None;
  }

  /** A blank or comment line can be removed without changing what is loaded. */
  lemma {:induction false} SkippedLineIgnored(a: seq<Entry>, c: seq<Entry>,
                                              vars: map<string, string>, count: nat)
    ensures LoadEntries(a + [Skipped] + c, vars, count) == LoadEntries(a + c, vars, count)
  {
    if a == [] {
      assert (a + [Skipped] + c)[1..] == a + c;
    } else {
      assert (a + [Skipped] + c)[0] == (a + c)[0] == a[0];
      assert (a + [Skipped] + c)[1..] == a[1..] + [Skipped] + c;
      assert (a + c)[1..] == a[1..] + c;
      match a[0]
      case Skipped => SkippedLineIgnored(a[1..], c, vars, count);
      case Malformed =>
      case Assignment(k, v) => SkippedLineIgnored(a[1..], c, Setenv(vars, k, v), count + 1);
    }
  }

  /** Loading s + [x] is loading s and then, if that succeeded, x. */
  lemma {:induction false} LoadAppend(s: seq<Entry>, x: Entry, vars: map<string, string>, count: nat)
    ensures LoadEntries(s + [x], vars, count) ==
      match LoadEntries(s, vars, count)
      case Loaded(m, n) => LoadEntries([x], m, n)
      case halted => halted
  {
    if s == [] {
      assert s + [x] == [x];
    } else {
      assert (s + [x])[0] == s[0] && (s + [x])[1..] == s[1..] + [x];
      match s[0]
      case Skipped => LoadAppend(s[1..], x, vars, count);
      case Malformed =>
      case Assignment(k, v) => LoadAppend(s[1..], x, Setenv(vars, k, v), count + 1);
    }
  }

  /** How many of the entries are assignments. */
  function AssignmentCount(es: seq<Entry>): nat
  {
    if es == [] then 0 else (if es[0].Assignment? then 1 else 0) + AssignmentCount(es[1..])
  }

  /**
   * The load stops exactly when some line is malformed, and the number in its
   * error is the count of assignments before the first malformed line, not
   * the line's position in the file.
   */
  lemma {:induction false} HaltCountsAssignments(es: seq<Entry>, vars: map<string, string>, count: nat)
    ensures var o, bad := LoadEntries(es, vars, count), IndexOf(es, Malformed);
      && (o.Halted? <==> bad.Some?)
      && (o.Halted? ==> o.line == count + AssignmentCount(es[..bad.value]))
      && (o.Loaded? ==> o.total == count + AssignmentCount(es))
  {
    if es != [] {
      var e := es[0];
      if e.Malformed? {
        assert es[..0] == [];
      } else {
        var vars' := if e.Assignment? then Setenv(vars, e.key, e.value) else vars;
        var count' := if e.Assignment? then count + 1 else count;
        HaltCountsAssignments(es[1..], vars', count');
        var bad := IndexOf(es[1..], Malformed);
        if bad.Some? {
          assert es[..bad.value + 1][1..] == es[1..][..bad.value];
        }
      }
    }
  }

  /** The value the last assignment os.Setenv accepts for key gives it, if any. */
  function LastSetting(es: seq<Entry>, key: string): Option<string>
  {
    if es == [] then None
    else
      var e := es[|es| - 1];
      if e.Assignment? && e.key == key && Settable(e.key, e.value) then Some(e.value)
      else LastSetting(es[..|es| - 1], key)
  }

  /**
   * After a successful load each variable holds the value of the last line that
   * sets it, or, if no line does, what it held before.
   */
  lemma {:induction false} LastAssignmentWins(es: seq<Entry>, vars: map<string, string>,
                                              count: nat, key: string)
    requires LoadEntries(es, vars, count).Loaded?
    ensures var m := LoadEntries(es, vars, count).vars;
      match LastSetting(es, key)
      case Some(v) => key in m && m[key] == v
      case None => (key in m <==> key in vars) && (key in vars ==> m[key] == vars[key])
  {
    if es != [] {
      var s, x := es[..|es| - 1], es[|es| - 1];
      assert es == s + [x];
      LoadAppend(s, x, vars, count);
      LastAssignmentWins(s, vars, count, key);
      assert [x][1..] == [];
    }
  }

  // ---------------------------------------------------------------------------
  // UpdateEnvVar

  /** The lines UpdateEnvVar may rewrite for key: those that start with key=. */
  predicate Matches(line: string, key: string)
  {
    key + "=" <= line
  }

  /** The first line that starts with key=, if any. */
  function FirstMatch(lines: seq<string>, key: string): (r: Option<nat>)
    ensures r.None? ==> forall j | 0 <= j < |lines| :: !Matches(lines[j], key)
    ensures r.Some? ==> r.value < |lines| && Matches(lines[r.value], key)
    ensures r.Some? ==> forall j | 0 <= j < r.value :: !Matches(lines[j], key)
  {
    if lines == [] then None
    else if Matches(lines[0], key) then Some(0)
    else match FirstMatch(lines[1..], key)
      case None => None
      case Some(i) => Some(i + 1)
  }

  /** The line written in place of the first match. */
  function QuotedLine(key: string, value: string): string
  {
    key + "='" + value + "'"
  }

  /** The line appended when no line matches. */
  function PlainLine(key: string, value: string): string
  {
    key + "=" + value
  }

  /**
   * The lines UpdateEnvVar writes: the first line starting with key= becomes
   * key='value' and every other line is kept, or, if none matches, key=value is
   * appended.
   */
  function Rewritten(lines: seq<string>, key: string, value: string): (r: seq<string>)
    ensures FirstMatch(lines, key).Some? ==> |r| == |lines|
    ensures FirstMatch(lines, key).None? ==> |r| == |lines| + 1 && r[|lines|] == PlainLine(key, value)
    ensures forall j | 0 <= j < |lines| && FirstMatch(lines, key) != Some(j) :: r[j] == lines[j]
    ensures forall j | 0 <= j < |lines| && FirstMatch(lines, key) == Some(j) :: r[j] == QuotedLine(key, value)
  {
    match FirstMatch(lines, key)
    case Some(i) => lines[i := QuotedLine(key, value)]
    case None => lines + [PlainLine(key, value)]
  }

  /** UpdateEnvVar on the file's lines: returns the lines it writes back. */
  method UpdateEnvVar(lines: seq<string>, key: string, newValue: string) returns (written: seq<string>)
    ensures written == Rewritten(lines, key, newValue)
  {
    written := [];
    var found := false;
    ghost var first := 0;
    for i := 0 to |lines|
      invariant |written| == i
      invariant !found ==> written == lines[..i] && forall j | 0 <= j < i :: !Matches(lines[j], key)
      invariant found ==> first < i && Matches(lines[first], key)
      invariant found ==> forall j | 0 <= j < first :: !Matches(lines[j], key)
      invariant found ==> written == lines[..i][first := QuotedLine(key, newValue)]
    {
      var line := lines[i];
      if !found && key + "=" <= line {
        written := written + [QuotedLine(key, newValue)];
        found := true;
        first := i;
        continue;
      }
      written := written + [line];
    }
    assert lines[..|lines|] == lines;
    if !found {
      written := written + [PlainLine(key, newValue)];
    } else {
      assert FirstMatch(lines, key) == Some(first);
    }
  }

  /** Running UpdateEnvVar twice with the same key: the second run rewrites the line the first one wrote, quoting it. */
  lemma RewriteTwice(lines: seq<string>, key: string, v: string, w: string)
    ensures Rewritten(Rewritten(lines, key, v), key, w) ==
      if FirstMatch(lines, key).Some? then Rewritten(lines, key, w) else lines + [QuotedLine(key, w)]
  {
    var once := Rewritten(lines, key, v);
    match FirstMatch(lines, key)
    case Some(i) =>
      assert Matches(QuotedLine(key, v), key);
      assert FirstMatch(once, key) == Some(i);
      assert once[i := QuotedLine(key, w)] == lines[i := QuotedLine(key, w)];
    case None =>
      assert Matches(PlainLine(key, v), key);
      assert FirstMatch(once, key) == Some(|lines|);
      assert once[|lines| := QuotedLine(key, w)] == lines + [QuotedLine(key, w)];
  }

  // ---------------------------------------------------------------------------
  // Reading back what UpdateEnvVar wrote

  /** The entry is an assignment to key. */
  predicate AssignsKey(e: Entry, key: string)
  {
    e.Assignment? && e.key == key
  }

  /**
   * A key that LoadDotEnv reads back as written and os.Setenv accepts; it has
   * no line break, since the lines are written back joined by newlines.
   */
  predicate PortableKey(key: string)
  {
    key != [] && key[0] != '#' && TrimSpace(key) == key && '=' !in key && '\0' !in key && '\n' !in key
  }

  /** A value that LoadDotEnv's trimming leaves as it is, os.Setenv accepts, and that has no line break. */
  predicate PortableValue(value: string)
  {
    Trim(TrimSpace(value), Quotes) == value && '\0' !in value && '\n' !in value
  }

  /** The outcome o with variable key set to value. */
  function WithVar(o: LoadOutcome, key: string, value: string): LoadOutcome
  {
    o.(vars := o.vars[key := value])
  }

  /** Entries that do not assign key carry its value through unchanged. */
  lemma {:induction false} LoadFrame(es: seq<Entry>, vars: map<string, string>, count: nat,
                                     key: string, value: string)
    requires forall j | 0 <= j < |es| :: !AssignsKey(es[j], key)
    ensures LoadEntries(es, vars[key := value], count) == WithVar(LoadEntries(es, vars, count), key, value)
  {
    if es != [] {
      match es[0]
      case Skipped => LoadFrame(es[1..], vars, count, key, value);
      case Malformed =>
      case Assignment(k, v) =>
        assert k != key;
        assert Setenv(vars[key := value], k, v) == Setenv(vars, k, v)[key := value];
        LoadFrame(es[1..], Setenv(vars, k, v), count + 1, key, value);
    }
  }

  /**
   * Replacing an assignment to key that no later entry overrides changes the
   * load only in the value of key.
   */
  lemma {:induction false} LoadReplace(es: seq<Entry>, i: nat, key: string, value: string,
                                       vars: map<string, string>, count: nat)
    requires i < |es| && AssignsKey(es[i], key) && Settable(key, value)
    requires forall j | i < j < |es| :: !AssignsKey(es[j], key)
    ensures var before, after := LoadEntries(es, vars, count), LoadEntries(es[i := Assignment(key, value)], vars, count);
      && (after.Loaded? <==> before.Loaded?)
      && (before.Loaded? ==> after == WithVar(before, key, value))
      && (before.Halted? ==> after.line == before.line)
  {
    var es' := es[i := Assignment(key, value)];
    if i == 0 {
      assert es'[1..] == es[1..];
      var rest := LoadEntries(es[1..], vars, count + 1);
      LoadFrame(es[1..], vars, count + 1, key, value);
      if Settable(key, es[0].value) {
        LoadFrame(es[1..], vars, count + 1, key, es[0].value);
      }
    } else {
      assert es'[0] == es[0] && es'[1..] == es[1..][i - 1 := Assignment(key, value)];
      match es[0]
      case Skipped => LoadReplace(es[1..], i - 1, key, value, vars, count);
      case Malformed =>
      case Assignment(k, v) => LoadReplace(es[1..], i - 1, key, value, Setenv(vars, k, v), count + 1);
    }
  }

  /** Any line that starts with key= assigns key; if it has no trailing space, its value is the rest trimmed. */
  lemma ParseKeyed(key: string, rest: string)
    requires PortableKey(key)
    ensures AssignsKey(ParseLine(key + "=" + rest), key)
    ensures rest == [] || !InCut(rest[|rest| - 1], Spaces) ==>
      ParseLine(key + "=" + rest) == Assignment(key, Trim(TrimSpace(rest), Quotes))
  {
    var line := key + "=" + rest;
    assert !InCut(key[0], Spaces);
    assert line[0] == key[0];
    assert TrimLeft(line, Spaces) == line;
    var t := TrimSpace(line);
    TrimRightIsPrefix(line, Spaces);
    assert line[|key|] == '=';
    assert |t| > |key|;
    assert t[..|key|] == key && t[|key|] == '=';
    assert t != [] && t[0] != '#';
    var eq := IndexOf(t, '=');
    assert '=' in t;
    assert eq == Some(|key|);
    if rest == [] || !InCut(rest[|rest| - 1], Spaces) {
      assert !InCut(line[|line| - 1], Spaces);
      assert t == line;
      assert line[|key| + 1..] == rest;
    }
  }

  /** A portable value passes through LoadDotEnv's trimming unchanged, and so does its trimmed-space form. */
  lemma PortableValueIsTrimmed(value: string)
    requires PortableValue(value)
    ensures TrimSpace(value) == value && Trim(value, Quotes) == value
  {
    TrimSameLength(value, Spaces);
  }

  /** Reading a portable value between single quotes gives the value back. */
  lemma QuotedValueTrims(value: string)
    requires PortableValue(value)
    ensures var rest := "'" + value + "'";
      !InCut(rest[|rest| - 1], Spaces) && Trim(TrimSpace(rest), Quotes) == value
  {
    var rest := "'" + value + "'";
    assert rest == ['\''] + value + ['\''];
    assert rest[0] == '\'' && rest[|rest| - 1] == '\'';
    TrimKeeps(rest, Spaces);
    TrimWrapped('\'', value, Quotes);
    PortableValueIsTrimmed(value);
  }

  /** The line UpdateEnvVar writes in place of a match reads back as the assignment it stands for. */
  lemma ParseQuoted(key: string, value: string)
    requires PortableKey(key) && PortableValue(value)
    ensures ParseLine(QuotedLine(key, value)) == Assignment(key, value)
  {
    var rest := "'" + value + "'";
    QuotedValueTrims(value);
    assert QuotedLine(key, value) == key + "=" + rest;
    ParseKeyed(key, rest);
  }

  /** The line UpdateEnvVar appends reads back as the assignment it stands for. */
  lemma ParsePlain(key: string, value: string)
    requires PortableKey(key) && PortableValue(value)
    ensures ParseLine(PlainLine(key, value)) == Assignment(key, value)
  {
    PortableValueIsTrimmed(value);
    ParseKeyed(key, value);
  }

  /** No line after the one UpdateEnvVar rewrites assigns key. */
  predicate NoLaterAssignment(lines: seq<string>, key: string)
  {
    match FirstMatch(lines, key)
    case None => true
    case Some(i) => forall j | i < j < |lines| :: !AssignsKey(ParseLine(lines[j]), key)
  }

  /** Replacing one line replaces its entry. */
  lemma EntriesUpdate(lines: seq<string>, i: nat, line: string)
    requires i < |lines|
    ensures Entries(lines[i := line]) == Entries(lines)[i := ParseLine(line)]
  {
  }

  /** Appending a line appends its entry. */
  lemma EntriesAppend(lines: seq<string>, line: string)
    ensures Entries(lines + [line]) == Entries(lines) + [ParseLine(line)]
  {
  }

  /** When some line starts with key=, the rewrite replaces that line's entry by the new assignment, which no later entry overrides. */
  lemma RoundTripReplaced(lines: seq<string>, key: string, value: string, i: nat)
    requires PortableKey(key) && PortableValue(value) && NoLaterAssignment(lines, key)
    requires FirstMatch(lines, key) == Some(i)
    ensures var es := Entries(lines);
      && Entries(Rewritten(lines, key, value)) == es[i := Assignment(key, value)]
      && i < |es| && AssignsKey(es[i], key) && Settable(key, value)
      && forall j | i < j < |es| :: !AssignsKey(es[j], key)
  {
    assert lines[i] == key + "=" + lines[i][|key| + 1..];
    ParseKeyed(key, lines[i][|key| + 1..]);
    ParseQuoted(key, value);
    EntriesUpdate(lines, i, QuotedLine(key, value));
  }

  /** When no line starts with key=, the rewrite appends the new assignment's entry. */
  lemma RoundTripAppended(lines: seq<string>, key: string, value: string)
    requires PortableKey(key) && PortableValue(value)
    requires FirstMatch(lines, key).None?
    ensures Entries(Rewritten(lines, key, value)) == Entries(lines) + [Assignment(key, value)]
  {
    ParsePlain(key, value);
    EntriesAppend(lines, PlainLine(key, value));
  }

  /**
   * Round trip: loading the lines UpdateEnvVar writes gives what loading the
   * original lines gives, with key now holding the new value.
   */
  lemma RoundTrip(lines: seq<string>, key: string, value: string, vars: map<string, string>)
    requires PortableKey(key) && PortableValue(value) && NoLaterAssignment(lines, key)
    ensures var before, after := Load(lines, vars), Load(Rewritten(lines, key, value), vars);
      && (after.Loaded? <==> before.Loaded?)
      && (before.Loaded? ==> after.vars == before.vars[key := value] && after.vars[key] == value)
      && (before.Halted? ==> after.line == before.line)
  {
    var es := Entries(lines);
    match FirstMatch(lines, key)
    case Some(i) =>
      RoundTripReplaced(lines, key, value, i);
      LoadReplace(es, i, key, value, vars, 0);
    case None =>
      RoundTripAppended(lines, key, value);
      LoadAppend(es, Assignment(key, value), vars, 0);
      assert [Assignment(key, value)][1..] == [];
  }
}
