/**
 The `.env` line editor (server/routes/appstudio.js, `writeEnvKey`) against the
 `.env` loader at the top of server/index.js.
 */
module EnvFile {
  import opened Strings
  import opened Wrappers

  // ---- strings as JavaScript sees them --------------------------------------------

  /** The characters String.prototype.trim removes. */
  predicate IsSpace(c: char) {
    var n := c as int;
    9 <= n <= 13 || n == 32 || n == 0xA0 || n == 0x1680 || 0x2000 <= n <= 0x200A ||
    n == 0x2028 || n == 0x2029 || n == 0x202F || n == 0x205F || n == 0x3000 || n == 0xFEFF
  }

  function TrimStart(s: string): string {
    if s != "" && IsSpace(s[0]) then TrimStart(s[1..]) else s
  }

  function TrimEnd(s: string): string {
    if s != "" && IsSpace(s[|s| - 1]) then TrimEnd(s[..|s| - 1]) else s
  }

  function Trim(s: string): string {
    TrimEnd(TrimStart(s))
  }

  function Lines(content: string): seq<string> {
    SplitOn(content, '\n')
  }

  function Text(lines: seq<string>): string {
    JoinWith(lines, '\n')
  }

  function IndexOf(s: string, c: char): (i: nat)
    ensures i <= |s| && (i < |s| ==> s[i] == c) && c !in s[..i]
  {
    if s == "" || s[0] == c then 0 else
      assert s[..1 + IndexOf(s[1..], c)] == [s[0]] + s[1..][..IndexOf(s[1..], c)];
      1 + IndexOf(s[1..], c)
  }

  // ---- the loader ---------------------------------------------------------------------

  type Environment = map<string, string>

  /** The assignment a line asks for, if any. */
  function ParseLine(line: string): Option<(string, string)> {
    var trimmed := Trim(line);
    if trimmed == "" || trimmed[0] == '#' then None
    else
      var eq := IndexOf(trimmed, '=');
      if eq == |trimmed| then None else Some((Trim(trimmed[..eq]), Trim(trimmed[eq + 1..])))
  }

  /** A variable that is already set to something non-empty is not overridden. */
  predicate Truthy(env: Environment, key: string) {
    key in env && env[key] != ""
  }

  function LoadLine(env: Environment, line: string): Environment {
    match ParseLine(line)
    case None => env
    case Some((key, value)) => if Truthy(env, key) then env else env[key := value]
  }

  function LoadLines(env: Environment, lines: seq<string>): Environment
    decreases |lines|
  {
    if lines == [] then env else LoadLines(LoadLine(env, lines[0]), lines[1..])
  }

  method Load(env: Environment, content: string) returns (out: Environment)
    ensures out == LoadLines(env, Lines(content))
  {
    out := env;
    var lines := Lines(content);
    for i := 0 to |lines|
      invariant LoadLines(env, lines) == LoadLines(out, lines[i..])
    {
      assert lines[i..][0] == lines[i] && lines[i..][1..] == lines[i + 1..];
      var trimmed := Trim(lines[i]);
      if trimmed == "" || trimmed[0] == '#' { continue; }
      var eq := IndexOf(trimmed, '=');
      if eq == |trimmed| { continue; }
      var key := Trim(trimmed[..eq]);
      if !(key in out && out[key] != "") { out := out[key := Trim(trimmed[eq + 1..])]; }
    }
  }

  // ---- the editor ---------------------------------------------------------------------

  predicate Matches(line: string, key: string) {
    key + "=" <= Trim(line)
  }

  /** Index of the first line that assigns the key, or the number of lines. */
  function FindLine(lines: seq<string>, key: string): (i: nat)
    ensures i <= |lines| && (i < |lines| ==> Matches(lines[i], key))
    ensures forall j :: 0 <= j < i ==> !Matches(lines[j], key)
  {
    if lines == [] || Matches(lines[0], key) then 0 else 1 + FindLine(lines[1..], key)
  }

  function WriteLines(lines: seq<string>, key: string, value: string): seq<string> {
    var i := FindLine(lines, key);
    if i < |lines| then lines[i := key + "=" + value] else lines + [key + "=" + value]
  }

  /** `None` stands for a file that does not exist. */
  method WriteEnvKey(file: Option<string>, key: string, value: string) returns (content: string)
    ensures content == Write(if file.Some? then file.value else "", key, value)
  {
    var lines := Lines(if file.Some? then file.value else "");
    var idx := 0;
    while idx < |lines| && !Matches(lines[idx], key)
      invariant idx <= |lines| && FindLine(lines, key) == idx + FindLine(lines[idx..], key)
    {
      assert lines[idx..][1..] == lines[idx + 1..];
      idx := idx + 1;
    }
    if idx < |lines| {
      lines := lines[idx := key + "=" + value];
    } else {
      lines := lines + [key + "=" + value];
    }
    content := Text(lines);
  }

  function Write(content: string, key: string, value: string): string {
    Text(WriteLines(Lines(content), key, value))
  }

  // ---- the lines of a written value ----------------------------------------------------------

  predicate Trimmed(s: string) {
    s == "" || (!IsSpace(s[0]) && !IsSpace(s[|s| - 1]))
  }

  predicate GoodKey(key: string) {
    key != "" && Trimmed(key) && '=' !in key && '\n' !in key && key[0] != '#'
  }

  /** What the PUT handler passes on: not empty and trimmed, but possibly of several lines. */
  predicate GoodValue(value: string) {
    value != "" && Trimmed(value)
  }

  function FirstLine(value: string): string {
    Lines(value)[0]
  }

  function Further(value: string): seq<string> {
    Lines(value)[1..]
  }

  lemma ValueLines(key: string, value: string)
    requires GoodKey(key) && GoodValue(value)
    ensures Lines(key + "=" + value) == [key + "=" + FirstLine(value)] + Further(value)
    ensures FirstLine(value) != "" && !IsSpace(FirstLine(value)[0])
  {
    SplitPrefix(key + "=", value, '\n');
    SplitPrefix([value[0]], value[1..], '\n');
    assert [value[0]] + value[1..] == value;
  }

  /** The lines of the file after a write. */
  function LinesAfter(lines: seq<string>, key: string, value: string): seq<string> {
    var i := FindLine(lines, key);
    lines[..i] + ([key + "=" + FirstLine(value)] + Further(value)) + lines[if i < |lines| then i + 1 else i..]
  }

  lemma WrittenLines(content: string, key: string, value: string)
    requires GoodKey(key) && GoodValue(value)
    ensures Lines(Write(content, key, value)) == LinesAfter(Lines(content), key, value)
  {
    var lines := Lines(content);
    var i := FindLine(lines, key);
    var front, back := lines[..i], lines[if i < |lines| then i + 1 else i..];
    SplitHasNoSeparator(content, '\n');
    assert forall l :: l in front || l in back ==> l in lines;
    assert WriteLines(lines, key, value) == front + [key + "=" + value] + back;
    SplitJoinAround(front, key + "=" + value, back, '\n');
    ValueLines(key, value);
  }

  // ---- a written line reads back ----------------------------------------------------------

  lemma {:induction false} TrimEndAfter(prefix: string, s: string)
    requires s != "" && !IsSpace(s[0])
    ensures TrimEnd(prefix + s) == prefix + TrimEnd(s)
    ensures TrimEnd(s) != "" && TrimEnd(s)[0] == s[0] && TrimEnd(TrimEnd(s)) == TrimEnd(s)
    decreases |s|
  {
    var all := prefix + s;
    assert all[|all| - 1] == s[|s| - 1];
    if IsSpace(s[|s| - 1]) {
      assert all[..|all| - 1] == prefix + s[..|s| - 1];
      TrimEndAfter(prefix, s[..|s| - 1]);
    }
  }

  lemma FirstEquals(key: string, rest: string)
    requires '=' !in key
    ensures IndexOf(key + "=" + rest, '=') == |key|
  {
    var s := key + "=" + rest;
    var i := IndexOf(s, '=');
    assert s[|key|] == '=';
    forall j | 0 <= j < i ensures s[j] != '=' { assert s[j] == s[..i][j]; }
    assert forall j :: 0 <= j < |key| ==> s[j] == key[j] && key[j] in key;
  }

  lemma WrittenLineParses(key: string, first: string)
    requires GoodKey(key) && first != "" && !IsSpace(first[0])
    ensures ParseLine(key + "=" + first) == Some((key, Trim(first))) && Trim(first) != ""
    ensures Matches(key + "=" + first, key)
  {
    var line, kept := key + "=" + first, key + "=" + TrimEnd(first);
    TrimEndAfter(key + "=", first);
    assert line[0] == key[0] && kept[0] == key[0];
    assert Trim(line) == kept;
    FirstEquals(key, TrimEnd(first));
    assert kept[..|key|] == key && kept[|key| + 1..] == TrimEnd(first);
    assert Trim(key) == key && Trim(first) == TrimEnd(first) && Trim(TrimEnd(first)) == TrimEnd(first);
  }

  // ---- which lines assign what --------------------------------------------------------------

  predicate Blank(s: string) {
    forall c :: c in s ==> IsSpace(c)
  }

  lemma {:induction false} TrimStartOf(a: string, t: string)
    requires Blank(a) && (t == "" || !IsSpace(t[0]))
    ensures TrimStart(a + t) == t
  {
    if a == "" {
      assert a + t == t;
    } else {
      assert a[0] in a && (a + t)[0] == a[0] && (a + t)[1..] == a[1..] + t;
      TrimStartOf(a[1..], t);
    }
  }

  lemma {:induction false} TrimEndOf(t: string, d: string)
    requires Blank(d) && (t == "" || !IsSpace(t[|t| - 1]))
    ensures TrimEnd(t + d) == t
  {
    if d == "" {
      assert t + d == t;
    } else {
      var k := |d| - 1;
      assert d[k] in d && (t + d)[|t + d| - 1] == d[k] && (t + d)[..|t + d| - 1] == t + d[..k];
      TrimEndOf(t, d[..k]);
    }
  }

  lemma TrimOf(a: string, t: string, d: string)
    requires Blank(a) && Blank(d) && Trimmed(t)
    ensures Trim(a + t + d) == t
  {
    if t == "" {
      TrimStartOf(a + d, "");
      assert a + t + d == (a + d) + "";
    } else {
      TrimStartOf(a, t + d);
      assert a + t + d == a + (t + d);
      TrimEndOf(t, d);
    }
  }

  lemma GrammarTrims(a: string, key: string, b: string, rest: string, d: string)
    requires Blank(a) && Blank(d) && Trimmed(key)
    requires (key == "" ==> b == "") && (rest != "" ==> !IsSpace(rest[|rest| - 1]))
    ensures Trim(a + (key + b + "=" + rest) + d) == key + b + "=" + rest
  {
    var core := key + b + "=" + rest;
    assert core[|key + b|] == '=' && (key != "" ==> core[0] == key[0]);
    if rest != "" { assert core[|core| - 1] == rest[|rest| - 1]; }
    TrimOf(a, core, d);
  }

  lemma GrammarSplits(key: string, b: string, c: string, value: string)
    requires Blank(b) && Blank(c) && Trimmed(key) && Trimmed(value) && '=' !in key
    ensures var core := key + b + "=" + (c + value);
      && IndexOf(core, '=') == |key + b|
      && Trim(core[..|key + b|]) == key && Trim(core[|key + b| + 1..]) == value
  {
    var core := key + b + "=" + (c + value);
    assert '=' !in key + b by { assert forall x :: x in b ==> IsSpace(x); }
    FirstEquals(key + b, c + value);
    assert core[..|key + b|] == key + b && core[|key + b| + 1..] == c + value;
    TrimOf("", key, b);
    TrimOf(c, value, "");
    assert "" + key + b == key + b && c + value + "" == c + value;
  }

  lemma KeyBeforeEquals(key: string, b: string, rest: string)
    requires Blank(b)
    ensures key + "=" <= key + b + "=" + rest <==> b == ""
  {
    var core := key + b + "=" + rest;
    assert (key + "=")[|key|] == '=' && (b == "" ==> core == (key + "=") + rest);
    if b != "" { assert core[|key|] == b[0] && b[0] in b; }
  }

  /**
   A line `key = value` with blanks anywhere around the three parts assigns the value
   to the key, wherever further '=' stand in the value; the editor recognises exactly
   those without a blank in front of '='.
   */
  lemma LineGrammar(a: string, key: string, b: string, c: string, value: string, d: string)
    requires Blank(a) && Blank(b) && Blank(c) && Blank(d)
    requires Trimmed(key) && '=' !in key && (key == "" ==> b == "") && (key != "" ==> key[0] != '#')
    requires Trimmed(value) && (value == "" ==> c == "")
    ensures var line := a + (key + b + "=" + (c + value)) + d;
      ParseLine(line) == Some((key, value)) && (Matches(line, key) <==> b == "")
  {
    if value != "" { assert (c + value)[|c + value| - 1] == value[|value| - 1]; }
    GrammarTrims(a, key, b, c + value, d);
    GrammarSplits(key, b, c, value);
    KeyBeforeEquals(key, b, c + value);
    assert (key + b + "=" + (c + value))[0] == if key == "" then '=' else key[0];
  }

  lemma {:induction false} TrimStartKeeps(s: string)
    ensures forall c :: c in TrimStart(s) ==> c in s
  {
    if s != "" { TrimStartKeeps(s[1..]); }
  }

  lemma {:induction false} TrimEndKeeps(s: string)
    ensures forall c :: c in TrimEnd(s) ==> c in s
  {
    if s != "" { TrimEndKeeps(s[..|s| - 1]); }
  }

  /** Every other line is passed over: blank ones, comments, and those without '='. */
  lemma IgnoredLines(a: string, t: string)
    requires Blank(a)
    ensures ParseLine(a) == None && ParseLine(a + ("#" + t)) == None
    ensures '=' !in t ==> ParseLine(t) == None
  {
    TrimOf(a, "", "");
    assert a + "" + "" == a;
    TrimStartOf(a, "#" + t);
    TrimEndAfter("", "#" + t);
    assert "" + ("#" + t) == "#" + t;
    TrimStartKeeps(t);
    TrimEndKeeps(TrimStart(t));
  }

  predicate Assigns(line: string, key: string) {
    ParseLine(line).Some? && ParseLine(line).value.0 == key
  }

  /** A matching line assigns this key and no other. */
  lemma MatchingLineAssignsKey(line: string, key: string)
    requires GoodKey(key) && Matches(line, key)
    ensures ParseLine(line).Some? && ParseLine(line).value.0 == key
  {
    var trimmed := Trim(line);
    var rest := trimmed[|key| + 1..];
    assert trimmed == key + "=" + rest;
    FirstEquals(key, rest);
    assert trimmed[..|key|] == key;
  }

  // ---- what a key ends up as ------------------------------------------------------------

  function Lookup(env: Environment, key: string): Option<string> {
    if key in env then Some(env[key]) else None
  }

  /** The value one key settles on: the first non-empty one, or the last empty one. */
  function Settle(before: Option<string>, lines: seq<string>, key: string): Option<string>
    decreases |lines|
  {
    if lines == [] then before else Settle(SettleLine(before, lines[0], key), lines[1..], key)
  }

  function SettleLine(before: Option<string>, line: string, key: string): Option<string> {
    if Assigns(line, key) && !Shadows(before) then Some(ParseLine(line).value.1) else before
  }

  predicate Shadows(above: Option<string>) {
    above.Some? && above.value != ""
  }

  lemma {:induction false} LoadSettles(env: Environment, lines: seq<string>, key: string)
    ensures Lookup(LoadLines(env, lines), key) == Settle(Lookup(env, key), lines, key)
    decreases |lines|
  {
    if lines != [] { LoadSettles(LoadLine(env, lines[0]), lines[1..], key); }
  }

  lemma {:induction false} SettleAppend(before: Option<string>, s: seq<string>, t: seq<string>, key: string)
    ensures Settle(before, s + t, key) == Settle(Settle(before, s, key), t, key)
    decreases |s|
  {
    if s == [] {
      assert s + t == t;
    } else {
      assert (s + t)[0] == s[0] && (s + t)[1..] == s[1..] + t;
      SettleAppend(SettleLine(before, s[0], key), s[1..], t, key);
    }
  }

  lemma {:induction false} SettledStays(value: string, lines: seq<string>, key: string)
    requires value != ""
    ensures Settle(Some(value), lines, key) == Some(value)
  {
    if lines != [] { SettledStays(value, lines[1..], key); }
  }

  lemma {:induction false} UnassignedStays(before: Option<string>, lines: seq<string>, key: string)
    requires forall l :: l in lines ==> !Assigns(l, key)
    ensures Settle(before, lines, key) == before
  {
    if lines != [] { UnassignedStays(before, lines[1..], key); }
  }

  lemma {:induction false} AssignedAppears(before: Option<string>, lines: seq<string>, key: string)
    requires before.Some? || exists l :: l in lines && Assigns(l, key)
    ensures Settle(before, lines, key).Some?
    decreases |lines|
  {
    if lines != [] {
      assert forall l :: l in lines <==> l == lines[0] || l in lines[1..];
      AssignedAppears(SettleLine(before, lines[0], key), lines[1..], key);
    }
  }

  /** What the lines above the one that is written already give the key. */
  function ShadowedBy(env: Environment, lines: seq<string>, key: string): Option<string> {
    Settle(Lookup(env, key), lines[..FindLine(lines, key)], key)
  }

  /** A line the loader reads as a non-empty value of the key. */
  predicate Gives(line: string, key: string) {
    Assigns(line, key) && ParseLine(line).value.1 != ""
  }

  lemma {:induction false} SettlesNonEmptyExactly(before: Option<string>, lines: seq<string>, key: string)
    ensures Shadows(Settle(before, lines, key)) <==> Shadows(before) || exists l :: l in lines && Gives(l, key)
    decreases |lines|
  {
    if lines != [] {
      var after := SettleLine(before, lines[0], key);
      SettlesNonEmptyExactly(after, lines[1..], key);
      assert forall l :: l in lines <==> l == lines[0] || l in lines[1..];
      assert Shadows(after) <==> Shadows(before) || Gives(lines[0], key);
      if Gives(lines[0], key) { assert lines[0] in lines; }
    }
  }

  /** What a caller can look for before the write: an inherited value, or a giving line above the one written. */
  lemma ShadowedExactly(env: Environment, lines: seq<string>, key: string)
    ensures Shadows(ShadowedBy(env, lines, key)) <==>
            Truthy(env, key) || exists l :: l in lines[..FindLine(lines, key)] && Gives(l, key)
  {
    SettlesNonEmptyExactly(Lookup(env, key), lines[..FindLine(lines, key)], key);
  }

  lemma SettleAt(o: Option<string>, front: seq<string>, line: string, back: seq<string>, key: string)
    requires Gives(line, key)
    ensures var above := Settle(o, front, key);
      Settle(o, front + [line] + back, key) == if Shadows(above) then above else Some(ParseLine(line).value.1)
  {
    var above := Settle(o, front, key);
    SettleAppend(o, front + [line], back, key);
    SettleAppend(o, front, [line], key);
    assert [line][1..] == [];
    SettledStays(if Shadows(above) then above.value else ParseLine(line).value.1, back, key);
  }

  /** Lines that do not assign a key may be taken out. */
  lemma SettleIgnores(o: Option<string>, front: seq<string>, middle: seq<string>, back: seq<string>, key: string)
    requires forall l :: l in middle ==> !Assigns(l, key)
    ensures Settle(o, front + middle + back, key) == Settle(Settle(o, front, key), back, key)
  {
    SettleAppend(o, front + middle, back, key);
    SettleAppend(o, front, middle, key);
    UnassignedStays(Settle(o, front, key), middle, key);
  }

  lemma SettleWritten(
    o: Option<string>, front: seq<string>, line: string, more: seq<string>, back: seq<string>, key: string)
    requires Gives(line, key)
    ensures var above := Settle(o, front, key);
      Settle(o, front + ([line] + more) + back, key) == if Shadows(above) then above else Some(ParseLine(line).value.1)
  {
    SettleAt(o, front, line, more + back, key);
    assert front + [line] + (more + back) == front + ([line] + more) + back;
  }

  lemma WrittenKeySettles(env: Environment, lines: seq<string>, key: string, value: string)
    requires GoodKey(key) && GoodValue(value)
    ensures var above := ShadowedBy(env, lines, key);
      Settle(Lookup(env, key), LinesAfter(lines, key, value), key) ==
      if Shadows(above) then above else Some(Trim(FirstLine(value)))
  {
    var i := FindLine(lines, key);
    var back := lines[if i < |lines| then i + 1 else i..];
    ValueLines(key, value);
    WrittenLineParses(key, FirstLine(value));
    SettleWritten(Lookup(env, key), lines[..i], key + "=" + FirstLine(value), Further(value), back, key);
  }

  /** No further line of the value assigns the key. */
  predicate Leaves(value: string, key: string) {
    forall l :: l in Further(value) ==> !Assigns(l, key)
  }

  lemma SettleExchanged(o: Option<string>, lines: seq<string>, i: nat, n: nat, middle: seq<string>, other: string)
    requires i <= n <= |lines|
    requires (forall l :: l in middle ==> !Assigns(l, other)) && forall l :: l in lines[i..n] ==> !Assigns(l, other)
    ensures Settle(o, lines[..i] + middle + lines[n..], other) == Settle(o, lines, other)
  {
    SettleIgnores(o, lines[..i], middle, lines[n..], other);
    SettleIgnores(o, lines[..i], lines[i..n], lines[n..], other);
    assert lines[..i] + lines[i..n] + lines[n..] == lines;
  }

  lemma WrittenLeave(key: string, value: string, other: string)
    requires GoodKey(key) && GoodValue(value) && other != key && Leaves(value, other)
    ensures forall l :: l in [key + "=" + FirstLine(value)] + Further(value) ==> !Assigns(l, other)
  {
    ValueLines(key, value);
    WrittenLineParses(key, FirstLine(value));
  }

  lemma OtherKeysSettle(o: Option<string>, lines: seq<string>, key: string, value: string, other: string)
    requires GoodKey(key) && GoodValue(value) && other != key && Leaves(value, other)
    ensures Settle(o, LinesAfter(lines, key, value), other) == Settle(o, lines, other)
  {
    var i := FindLine(lines, key);
    var n := if i < |lines| then i + 1 else i;
    WrittenLeave(key, value, other);
    if i < |lines| { MatchingLineAssignsKey(lines[i], key); }
    assert lines[i..n] == if i < |lines| then [lines[i]] else [];
    SettleExchanged(o, lines, i, n, [key + "=" + FirstLine(value)] + Further(value), other);
  }

  // ---- writing, then loading ---------------------------------------------------------------------

  function LoadBefore(env: Environment, content: string): Environment {
    LoadLines(env, Lines(content))
  }

  function LoadAfter(env: Environment, content: string, key: string, value: string): Environment {
    LoadLines(env, Lines(Write(content, key, value)))
  }

  /**
   Writing a key and loading the file: the key loads as the value's first line unless
   an inherited variable or a line above the written one already gives it a non-empty
   value, which then wins; every other key that no further line of the value assigns
   loads as before.
   */
  lemma WriteThenLoad(env: Environment, content: string, key: string, value: string)
    requires GoodKey(key) && GoodValue(value)
    ensures var above := ShadowedBy(env, Lines(content), key);
      Lookup(LoadAfter(env, content, key, value), key) == if Shadows(above) then above else Some(Trim(FirstLine(value)))
    ensures forall other :: other != key && Leaves(value, other) ==>
      Lookup(LoadAfter(env, content, key, value), other) == Lookup(LoadBefore(env, content), other)
  {
    var was := Lines(content);
    WrittenLines(content, key, value);
    LoadSettles(env, LinesAfter(was, key, value), key);
    WrittenKeySettles(env, was, key, value);
    forall other | other != key && Leaves(value, other)
      ensures Lookup(LoadAfter(env, content, key, value), other) == Lookup(LoadBefore(env, content), other)
    {
      LoadSettles(env, LinesAfter(was, key, value), other);
      LoadSettles(env, was, other);
      OtherKeysSettle(Lookup(env, other), was, key, value, other);
    }
  }

  /** So a one-line value is what its key loads as, and it disturbs no other key at all. */
  lemma OneLineValue(value: string)
    requires GoodValue(value) && '\n' !in value
    ensures Trim(FirstLine(value)) == value && forall other :: Leaves(value, other)
  {
    SplitSingle(value, '\n');
  }

  lemma FurtherLineAssigns(key: string, value: string, other: string)
    requires GoodKey(key) && GoodValue(value) && other != key && !Leaves(value, other)
    ensures Lookup(LoadAfter(map[], "", key, value), other) != Lookup(LoadBefore(map[], ""), other)
  {
    var lines := LinesAfter([""], key, value);
    WrittenLines("", key, value);
    LoadSettles(map[], lines, other);
    LoadSettles(map[], [""], other);
    UnassignedStays(None, [""], other);
    var l :| l in Further(value) && Assigns(l, other);
    assert l in [key + "=" + FirstLine(value)] + Further(value);
    assert l in lines;
    AssignedAppears(None, lines, other);
  }

  /**
   A written value leaves another key alone in every file and environment exactly when
   none of its further lines assigns it.
   */
  lemma OtherKeysUnchangedExactly(key: string, value: string, other: string)
    requires GoodKey(key) && GoodValue(value) && other != key
    ensures Leaves(value, other) <==>
      forall env, content ::
        Lookup(LoadAfter(env, content, key, value), other) == Lookup(LoadBefore(env, content), other)
  {
    if Leaves(value, other) {
      forall env, content
        ensures Lookup(LoadAfter(env, content, key, value), other) == Lookup(LoadBefore(env, content), other)
      {
        WriteThenLoad(env, content, key, value);
      }
    } else {
      FurtherLineAssigns(key, value, other);
    }
  }

  /** Enough for a caller: nothing inherited, and no line of the file spells the key with a space before `=`. */
  lemma UnspacedFileTakesValue(env: Environment, content: string, key: string)
    requires !Truthy(env, key)
    requires forall l :: l in Lines(content) && Assigns(l, key) ==> Matches(l, key)
    ensures !Shadows(ShadowedBy(env, Lines(content), key))
  {
    var lines := Lines(content);
    var i := FindLine(lines, key);
    forall l | l in lines[..i] ensures !Assigns(l, key) {
      var j :| 0 <= j < i && lines[j] == l;
      assert l in lines;
    }
    UnassignedStays(Lookup(env, key), lines[..i], key);
  }

  /** Such a line: the editor does not recognise it, the loader does. */
  lemma SpacedLineParses()
    ensures ParseLine("K =old") == Some(("K", "old")) && !Matches("K =old", "K")
  {
    var line := "K =old";
    assert Trim(line) == line;
    FirstEquals("K ", "old");
    assert "K " + "=" + "old" == line;
    assert line[..2] == "K " && line[3..] == "old";
    assert "K "[..1] == "K";
    assert TrimStart("K ") == "K " && TrimEnd("K ") == TrimEnd("K") == "K";
    assert line[1] == ' ' && ("K" + "=")[1] == '=';
  }

  // ---- any number of writes ----------------------------------------------------------------------

  function WriteAll(content: string, key: string, values: seq<string>): string
    decreases |values|
  {
    if values == [] then content else WriteAll(Write(content, key, values[0]), key, values[1..])
  }

  lemma {:induction false} FindLineIs(lines: seq<string>, key: string, i: nat)
    requires i < |lines| && Matches(lines[i], key) && forall j :: 0 <= j < i ==> !Matches(lines[j], key)
    ensures FindLine(lines, key) == i
  {
    if i > 0 { FindLineIs(lines[1..], key, i - 1); }
  }

  lemma WriteKeepsShadow(env: Environment, content: string, key: string, value: string)
    requires GoodKey(key) && GoodValue(value)
    ensures ShadowedBy(env, Lines(Write(content, key, value)), key) == ShadowedBy(env, Lines(content), key)
  {
    WrittenLines(content, key, value);
    WrittenLineIsFound(Lines(content), key, value);
  }

  /** The line just written is the one the next write finds, and everything above it is as it was. */
  lemma WrittenLineIsFound(lines: seq<string>, key: string, value: string)
    requires GoodKey(key) && GoodValue(value)
    ensures var i, after := FindLine(lines, key), LinesAfter(lines, key, value);
      i < |after| && FindLine(after, key) == i && after[..i] == lines[..i]
  {
    var i, after := FindLine(lines, key), LinesAfter(lines, key, value);
    var written := key + "=" + FirstLine(value);
    ValueLines(key, value);
    WrittenLineParses(key, FirstLine(value));
    assert after == lines[..i] + ([written] + Further(value) + lines[if i < |lines| then i + 1 else i..]);
    assert after[..i] == lines[..i] && after[i] == written;
    forall j | 0 <= j < i ensures !Matches(after[j], key) { assert after[j] == after[..i][j] == lines[j]; }
    FindLineIs(after, key, i);
  }

  /** A value the editor cannot see, above the line it writes, is what the key loads as after any number of writes. */
  lemma {:induction false} UnmatchedLineWins(env: Environment, content: string, key: string, values: seq<string>)
    requires GoodKey(key) && (forall v :: v in values ==> GoodValue(v))
    requires Shadows(ShadowedBy(env, Lines(content), key))
    ensures Lookup(LoadBefore(env, WriteAll(content, key, values)), key) == ShadowedBy(env, Lines(content), key)
    decreases |values|
  {
    if values == [] {
      var lines := Lines(content);
      var i := FindLine(lines, key);
      LoadSettles(env, lines, key);
      assert lines[..i] + lines[i..] == lines;
      SettleAppend(Lookup(env, key), lines[..i], lines[i..], key);
      SettledStays(ShadowedBy(env, lines, key).value, lines[i..], key);
    } else {
      assert values[0] in values;
      WriteKeepsShadow(env, content, key, values[0]);
      UnmatchedLineWins(env, Write(content, key, values[0]), key, values[1..]);
    }
  }
}
