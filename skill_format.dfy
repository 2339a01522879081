/**
  The SKILL.md layout the loader expects, written out: an opening `---`
  line, one `key: value` line for each required key, a closing `---` line,
  then the guidance. The main result is the round trip: loading a file
  written this way gives back the skill it was written from.
 */
module SkillFormat {
  import opened Strings
  import opened SkillRegistry

  /** A header key the file writer may use: a non-empty, trimmed word with
      no colon that does not start a comment or look like a delimiter. */
  predicate IsKey(key: string) {
    key != [] && IsTrimmed(key) && ':' !in key && key[0] != '#' && key[0] != '-'
  }

  /** A single-field value that survives a write and a read. */
  predicate FieldValue(v: string) {
    IsTrimmed(v) && NoNewline(v)
  }

  /** List items that survive being joined with `sep` and split again. */
  predicate ListItems(items: seq<string>, sep: char) {
    forall i :: 0 <= i < |items| ==> items[i] != [] && IsTrimmed(items[i]) && sep !in items[i] && NoNewline(items[i])
  }

  /** A skill that can be written as a SKILL.md file and read back. */
  predicate WellFormed(d: SkillDefinition) {
    && FieldValue(d.id) && FieldValue(d.name) && FieldValue(d.description)
    && ListItems(d.tags, ',') && ListItems(d.examples, '|')
    && IsTrimmed(d.guidance)
  }

  function HeaderLine(key: string, value: string): string {
    key + ": " + value
  }

  /** One `key: value` line per key, in order. */
  function HeaderText(keys: seq<string>, values: seq<string>): (r: seq<string>)
    requires |keys| == |values|
    ensures |r| == |keys|
    ensures forall i :: 0 <= i < |keys| ==> r[i] == HeaderLine(keys[i], values[i])
  {
    if keys == [] then []
    else
      var n := |keys| - 1;
      HeaderText(keys[..n], values[..n]) + [HeaderLine(keys[n], values[n])]
  }

  /** The keys mapped to the values, a later key winning over an earlier one. */
  function FieldMap(keys: seq<string>, values: seq<string>): (m: map<string, string>)
    requires |keys| == |values|
    ensures forall k :: k in m <==> k in keys
  {
    if keys == [] then map[]
    else
      var n := |keys| - 1;
      FieldMap(keys[..n], values[..n])[keys[n] := values[n]]
  }

  /** The header values of a skill, in the order of the required keys. */
  function FieldValues(d: SkillDefinition): seq<string> {
    [d.id, d.name, d.description, Join(", ", d.tags), Join(" | ", d.examples)]
  }

  /** The guidance as file lines; empty guidance adds no line. */
  function GuidanceLines(guidance: string): seq<string> {
    if guidance == "" then [] else Split(guidance, '\n')
  }

  function FileLines(d: SkillDefinition): seq<string> {
    [Delimiter] + HeaderText(RequiredKeys, FieldValues(d)) + [Delimiter] + GuidanceLines(d.guidance)
  }

  /** The text of a SKILL.md file for `d`. */
  function FormatSkillFile(d: SkillDefinition): string {
    Join("\n", FileLines(d))
  }

  // ---------------------------------------------------------------- one header line

  /** The text after the colon of a header line: empty for an empty value. */
  function AfterColon(value: string): string {
    if value == [] then "" else " " + value
  }

  /** Stripping a header line removes only the blank after an empty value. */
  lemma {:induction false} TrimHeaderLine(key: string, value: string)
    requires IsKey(key) && IsTrimmed(value)
    ensures Trim(HeaderLine(key, value)) == key + ":" + AfterColon(value)
    ensures Trim(AfterColon(value)) == value
  {
    var s := HeaderLine(key, value);
    if value == [] {
      assert s == (key + ":") + " ";
      TrimAppendSpaces(key + ":", " ");
      TrimOfTrimmed(key + ":");
      assert key + ":" + AfterColon(value) == key + ":";
    } else {
      assert s == key + ":" + AfterColon(value);
      TrimOfTrimmed(s);
      TrimPrependSpaces(" ", value);
      TrimOfTrimmed(value);
    }
  }

  /** A `key: value` line is read back as exactly that entry, and it is never
      taken for a delimiter. */
  lemma {:induction false} HeaderLineEntry(key: string, value: string)
    requires IsKey(key) && IsTrimmed(value)
    ensures HeaderEntry(HeaderLine(key, value)) == Some(Entry(key, value))
    ensures !IsDelimiter(HeaderLine(key, value))
  {
    var rest := AfterColon(value);
    var line := key + ":" + rest;
    TrimHeaderLine(key, value);
    assert line[..|key|] == key && line[|key|] == ':' && line[|key| + 1..] == rest;
    IndexOfUnique(line, ':', |key|);
    TrimOfTrimmed(key);
    assert line[0] == key[0];
  }

  // ---------------------------------------------------------------- header blocks

  /** Keys and values a header block can carry. */
  predicate Writable(keys: seq<string>, values: seq<string>) {
    && |keys| == |values|
    && (forall i :: 0 <= i < |keys| ==> IsKey(keys[i]))
    && (forall i :: 0 <= i < |values| ==> IsTrimmed(values[i]))
  }

  lemma {:induction false} WritablePrefix(keys: seq<string>, values: seq<string>, n: nat)
    requires Writable(keys, values) && n <= |keys|
    ensures Writable(keys[..n], values[..n])
  {
  }

  /** No line of a header block is a delimiter. */
  lemma {:induction false} HeaderTextNoDelimiter(keys: seq<string>, values: seq<string>)
    requires Writable(keys, values)
    ensures forall i :: 0 <= i < |keys| ==> !IsDelimiter(HeaderText(keys, values)[i])
  {
    forall i | 0 <= i < |keys| ensures !IsDelimiter(HeaderText(keys, values)[i]) {
      HeaderLineEntry(keys[i], values[i]);
    }
  }

  /** A header block is read back as the map of its keys to its values. */
  lemma {:induction false} HeaderTextMap(keys: seq<string>, values: seq<string>)
    requires Writable(keys, values)
    ensures HeaderMap(HeaderText(keys, values)) == FieldMap(keys, values)
  {
    if keys == [] {
      assert HeaderEntries([]) == [];
    } else {
      var n := |keys| - 1;
      WritablePrefix(keys, values, n);
      HeaderTextMap(keys[..n], values[..n]);
      HeaderLineEntry(keys[n], values[n]);
      HeaderMapSnoc(HeaderText(keys[..n], values[..n]), HeaderLine(keys[n], values[n]));
    }
  }

  /** A key that no later key repeats maps to its own value. */
  lemma {:induction false} FieldMapLookup(keys: seq<string>, values: seq<string>, i: nat)
    requires |keys| == |values| && i < |keys|
    requires forall j :: i < j < |keys| ==> keys[j] != keys[i]
    ensures FieldMap(keys, values)[keys[i]] == values[i]
  {
    var n := |keys| - 1;
    if i < n {
      assert forall j :: i < j < n ==> keys[..n][j] == keys[j];
      FieldMapLookup(keys[..n], values[..n], i);
    }
  }

  // ---------------------------------------------------------------- the file's lines

  /** The five keys the writer uses are header keys, and they are distinct. */
  lemma {:induction false} RequiredKeysAreKeys()
    ensures forall i :: 0 <= i < |RequiredKeys| ==> IsKey(RequiredKeys[i]) && NoNewline(RequiredKeys[i])
    ensures forall i, j :: 0 <= i < j < |RequiredKeys| ==> RequiredKeys[i] != RequiredKeys[j]
  {
  }

  /** The header values of a well-formed skill can be written as header lines. */
  lemma {:induction false} FieldValuesShape(d: SkillDefinition)
    requires WellFormed(d)
    ensures Writable(RequiredKeys, FieldValues(d))
    ensures forall i :: 0 <= i < |FieldValues(d)| ==> NoNewline(FieldValues(d)[i])
  {
    JoinTrimmed(", ", d.tags);
    JoinTrimmed(" | ", d.examples);
    JoinKeepsOut(", ", d.tags, '\n');
    JoinKeepsOut(" | ", d.examples, '\n');
    RequiredKeysAreKeys();
  }

  lemma {:induction false} HeaderTextSingleLine(keys: seq<string>, values: seq<string>)
    requires |keys| == |values|
    requires forall i :: 0 <= i < |keys| ==> NoNewline(keys[i]) && NoNewline(values[i])
    ensures forall i :: 0 <= i < |keys| ==> '\n' !in HeaderText(keys, values)[i]
  {
  }

  /** The guidance lines hold no line break, and the last one is not empty. */
  lemma {:induction false} GuidanceLinesShape(guidance: string)
    requires IsTrimmed(guidance)
    ensures forall i :: 0 <= i < |GuidanceLines(guidance)| ==> '\n' !in GuidanceLines(guidance)[i]
    ensures GuidanceLines(guidance) != [] ==> GuidanceLines(guidance)[|GuidanceLines(guidance)| - 1] != []
  {
    if guidance != "" {
      assert IsSpace('\n') && guidance[|guidance| - 1] != '\n';
      SplitLastNonEmpty(guidance, '\n');
      assert GuidanceLines(guidance) == Split(guidance, '\n');
    }
  }

  /** The guidance lines, joined and stripped as the loader does, give the
      guidance back. */
  lemma {:induction false} GuidanceLinesJoin(guidance: string)
    requires IsTrimmed(guidance)
    ensures Trim(Join("\n", GuidanceLines(guidance))) == guidance
  {
    assert "\n" == ['\n'];
    TrimOfTrimmed(guidance);
  }

  /** The written file splits back into exactly its lines. */
  lemma {:induction false} FileLinesSplit(d: SkillDefinition)
    requires WellFormed(d)
    ensures SplitLines(FormatSkillFile(d)) == FileLines(d)
  {
    var h := HeaderText(RequiredKeys, FieldValues(d));
    FieldValuesShape(d);
    RequiredKeysAreKeys();
    HeaderTextSingleLine(RequiredKeys, FieldValues(d));
    GuidanceLinesShape(d.guidance);
    KeepsOutConcat([Delimiter], h, '\n');
    KeepsOutConcat([Delimiter] + h, [Delimiter], '\n');
    KeepsOutConcat([Delimiter] + h + [Delimiter], GuidanceLines(d.guidance), '\n');
    SplitLinesJoin(FileLines(d));
  }

  /** The file opens at line 0 and closes at line 6. */
  lemma {:induction false} FileLinesClose(d: SkillDefinition)
    requires WellFormed(d)
    ensures Opens(FileLines(d)) && ClosesAt(FileLines(d), 6)
  {
    var lines := FileLines(d);
    var h := HeaderText(RequiredKeys, FieldValues(d));
    FieldValuesShape(d);
    HeaderTextNoDelimiter(RequiredKeys, FieldValues(d));
    TrimOfTrimmed(Delimiter);
    forall k | 1 <= k < 6 ensures !IsDelimiter(lines[k]) {
      assert lines[k] == h[k - 1];
    }
  }

  /** The field map of a skill holds each required key with its own value. */
  lemma {:induction false} FieldMapValues(d: SkillDefinition)
    ensures var m := FieldMap(RequiredKeys, FieldValues(d));
      && (forall k :: k in m <==> k in RequiredKeys)
      && m["id"] == d.id && m["name"] == d.name && m["description"] == d.description
      && m["tags"] == Join(", ", d.tags) && m["examples"] == Join(" | ", d.examples)
  {
    var keys, values := RequiredKeys, FieldValues(d);
    RequiredKeysAreKeys();
    FieldMapLookup(keys, values, 0);
    FieldMapLookup(keys, values, 1);
    FieldMapLookup(keys, values, 2);
    FieldMapLookup(keys, values, 3);
    FieldMapLookup(keys, values, 4);
  }

  /** Tags written as `t1, t2, ...` split back into the same tags. */
  lemma {:induction false} TagsRoundTrip(tags: seq<string>)
    requires ListItems(tags, ',')
    ensures SplitCsv(Join(", ", tags)) == tags
  {
    assert "" + [','] + " " == ", ";
    SplitItemsJoin(tags, "", ',', " ");
  }

  /** Examples written as `e1 | e2 | ...` split back into the same examples. */
  lemma {:induction false} ExamplesRoundTrip(examples: seq<string>)
    requires ListItems(examples, '|')
    ensures SplitExamples(Join(" | ", examples)) == examples
  {
    assert " " + ['|'] + " " == " | ";
    SplitItemsJoin(examples, " ", '|', " ");
  }

  /** Validating the header of a well-formed skill builds the skill back. */
  lemma {:induction false} FieldsBuild(path: string, d: SkillDefinition)
    requires WellFormed(d)
    ensures FromHeader(path, FieldMap(RequiredKeys, FieldValues(d)), d.guidance) == Success(d)
  {
    FieldMapValues(d);
    TagsRoundTrip(d.tags);
    ExamplesRoundTrip(d.examples);
  }

  // ---------------------------------------------------------------- round trip

  /** The header block is lines 1 to 5 of the file and the guidance lines
      follow the closing delimiter. */
  lemma {:induction false} FileLinesParts(d: SkillDefinition)
    ensures FileLines(d)[1..6] == HeaderText(RequiredKeys, FieldValues(d))
    ensures FileLines(d)[7..] == GuidanceLines(d.guidance)
  {
  }

  /** The written file parses to the field map of the skill and its guidance. */
  lemma {:induction false} ParseFormatted(path: string, d: SkillDefinition)
    requires WellFormed(d)
    ensures Parse(path, FormatSkillFile(d)) == Success(Parsed(FieldMap(RequiredKeys, FieldValues(d)), d.guidance))
  {
    FileLinesSplit(d);
    FileLinesClose(d);
    ParseClosesAt(path, FormatSkillFile(d), 6);
    FileLinesParts(d);
    FieldValuesShape(d);
    HeaderTextMap(RequiredKeys, FieldValues(d));
    GuidanceLinesJoin(d.guidance);
  }

  /** A well-formed skill, written as a SKILL.md file and loaded again, comes
      back unchanged. */
  lemma {:induction false} LoadFormatted(path: string, d: SkillDefinition)
    requires WellFormed(d)
    ensures Load(path, FormatSkillFile(d)) == Success(d)
  {
    ParseFormatted(path, d);
    FieldsBuild(path, d);
  }

  /** A file written for a well-formed skill reads back as that skill. */
  lemma {:induction false} ReadFormatted(path: string, files: map<string, string>, d: SkillDefinition)
    requires path in files && files[path] == FormatSkillFile(d)
    requires WellFormed(d)
    ensures ReadSkill(path, files) == Success(d)
  {
    LoadFormatted(path, d);
  }

  /** A known role whose registered files were written for well-formed skills
      gets back exactly those skills, in table order. */
  lemma {:induction false} GetSkillsFormatted(role: string, files: map<string, string>, ds: seq<SkillDefinition>)
    requires role in RoleSkillPaths
    requires |ds| == |RoleSkillPaths[role]|
    requires forall i :: 0 <= i < |ds| ==>
      && RoleSkillPaths[role][i] in files
      && files[RoleSkillPaths[role][i]] == FormatSkillFile(ds[i])
      && WellFormed(ds[i])
    ensures GetSkills(role, files) == Success(ds)
  {
    forall i | 0 <= i < |ds|
      ensures ReadSkill(RoleSkillPaths[role][i], files) == Success(ds[i])
    {
      ReadFormatted(RoleSkillPaths[role][i], files, ds[i]);
    }
    GetSkillsLoads(role, files, ds);
  }
}
