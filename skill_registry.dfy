/**
  The skill-metadata loader: a SKILL.md file opens with a `---` line, holds
  `key: value` header lines up to the next `---` line, and continues with
  free-form guidance. The loader parses such a file, checks the five
  required keys, builds a SkillDefinition, resolves a role to its skill
  files and renders the skills of a role as a prompt instruction block.

  Reading files is replaced by a map from path to file content.
 */
module SkillRegistry {
  import opened Strings

  // ---------------------------------------------------------------- data

  datatype Option<T> = None | Some(value: T)

  /** One skill as loaded from its file. */
  datatype SkillDefinition = SkillDefinition(
    id: string,
    name: string,
    description: string,
    tags: seq<string>,
    examples: seq<string>,
    guidance: string)

  /** The ways loading one file fails; each names the file. */
  datatype SkillError =
    | MissingFrontmatter(path: string)
    | UnterminatedFrontmatter(path: string)
    | MissingRequiredFields(path: string, missing: seq<string>)
    | FileNotFound(path: string)

  datatype Result<T> = Success(value: T) | Failure(error: SkillError)

  /** The text of the exception each failure raises; the three parser and
      validator messages end by naming the file. */
  function Message(e: SkillError): (m: string)
    ensures !e.FileNotFound? ==> |m| >= |e.path| + 4 && m[|m| - |e.path| - 4..] == " in " + e.path
  {
    var text := match e
      case MissingFrontmatter(_) => "Missing frontmatter"
      case UnterminatedFrontmatter(_) => "Frontmatter terminator " + "not found"
      case MissingRequiredFields(_, missing) => "Missing required " + "fields [" + Join(", ", missing) + "]"
      case FileNotFound(p) => "[Errno 2] No such " + "file or directory: '" + p + "'";
    if e.FileNotFound? then text
    else
      var tail := " in " + e.path;
      SuffixOfConcat(text, tail);
      text + tail
  }

  /** The message tells which kind of failure occurred. */
  lemma {:induction false} MessageTellsKind(e1: SkillError, e2: SkillError)
    requires Message(e1) == Message(e2)
    ensures e1.MissingFrontmatter? <==> e2.MissingFrontmatter?
    ensures e1.UnterminatedFrontmatter? <==> e2.UnterminatedFrontmatter?
    ensures e1.MissingRequiredFields? <==> e2.MissingRequiredFields?
    ensures e1.FileNotFound? <==> e2.FileNotFound?
  {
    MessageStart(e1);
    MessageStart(e2);
  }

  /** The first characters of each kind of message. */
  lemma {:induction false} MessageStart(e: SkillError)
    ensures |Message(e)| >= 9
    ensures e.MissingFrontmatter? ==> Message(e)[0] == 'M' && Message(e)[8] == 'f'
    ensures e.UnterminatedFrontmatter? ==> Message(e)[0] == 'F'
    ensures e.MissingRequiredFields? ==> Message(e)[0] == 'M' && Message(e)[8] == 'r'
    ensures e.FileNotFound? ==> Message(e)[0] == '['
  {
  }

  /** The static role -> skill-file table. */
  const RoleSkillPaths: map<string, seq<string>> := map[
    "policy" := ["skills/policy/SKILL.md"],
    "research" := ["skills/research/SKILL.md"],
    "provider" := ["skills/provider/SKILL.md"],
    "healthcare" := ["skills/healthcare/SKILL.md"]
  ]

  const Delimiter: string := "---"

  /** The keys every skill file must define, in the order they are reported. */
  const RequiredKeys: seq<string> := ["id", "name", "description", "tags", "examples"]

  /** The table knows four roles; each has exactly one skill file, and no two
      roles share one. */
  lemma {:induction false} RoleSkillPathsShape()
    ensures RoleSkillPaths.Keys == {"policy", "research", "provider", "healthcare"}
    ensures forall role :: role in RoleSkillPaths ==> |RoleSkillPaths[role]| == 1
    ensures forall r1, r2 :: r1 in RoleSkillPaths && r2 in RoleSkillPaths && r1 != r2 ==>
      RoleSkillPaths[r1][0] != RoleSkillPaths[r2][0]
  {
  }

  // ---------------------------------------------------------------- header lines

  /** A line that, stripped, is the `---` delimiter. */
  predicate IsDelimiter(line: string) {
    Trim(line) == Delimiter
  }

  datatype Entry = Entry(key: string, value: string)

  /** What one header line contributes: nothing for a blank line, a `#`
      comment or a line without `:`; otherwise the stripped text before the
      first `:` as key and the stripped rest as value. */
  function HeaderEntry(raw: string): (e: Option<Entry>)
    ensures e.None? <==> Trim(raw) == [] || Trim(raw)[0] == '#' || ':' !in Trim(raw)
    ensures e.Some? ==> ':' !in e.value.key && IsTrimmed(e.value.key) && IsTrimmed(e.value.value)
    ensures e.Some? ==>
      exists pre, post :: Trim(raw) == pre + ":" + post && ':' !in pre && e.value == Entry(Trim(pre), Trim(post))
  {
    var line := Trim(raw);
    if line == "" || line[0] == '#' || ':' !in line then None
    else
      var i := IndexOf(line, ':');
      assert line == line[..i] + ":" + line[i + 1..];
      TrimKeepsOut(line[..i], ':');
      Some(Entry(Trim(line[..i]), Trim(line[i + 1..])))
  }

  /** `e` is an entry for key `k`. */
  predicate Defines(e: Option<Entry>, k: string) {
    e.Some? && e.value.key == k
  }

  /** The map built from a sequence of entries, in order: each entry
      overwrites any earlier value of its key. */
  function EntryMap(entries: seq<Option<Entry>>): (m: map<string, string>)
    ensures forall k :: k in m ==> exists i :: 0 <= i < |entries| && entries[i] == Some(Entry(k, m[k]))
  {
    if entries == [] then map[]
    else
      var init := entries[..|entries| - 1];
      assert forall i :: 0 <= i < |init| ==> init[i] == entries[i];
      var m := EntryMap(init);
      match entries[|entries| - 1]
      case None => m
      case Some(e) => m[e.key := e.value]
  }

  /** Entry `i` is the last entry for key `k`. */
  predicate LastDefines(entries: seq<Option<Entry>>, k: string, i: int) {
    && 0 <= i < |entries|
    && Defines(entries[i], k)
    && forall j :: i < j < |entries| ==> !Defines(entries[j], k)
  }

  /** A key is in the map exactly when some entry defines it. */
  lemma {:induction false} EntryMapMember(entries: seq<Option<Entry>>, k: string)
    ensures k in EntryMap(entries) <==> exists i :: 0 <= i < |entries| && Defines(entries[i], k)
  {
    if entries != [] {
      var n := |entries| - 1;
      var init := entries[..n];
      EntryMapMember(init, k);
      if k in EntryMap(init) {
        var i :| 0 <= i < n && Defines(init[i], k);
        assert init[i] == entries[i];
      }
      if exists i :: 0 <= i < |entries| && Defines(entries[i], k) {
        var i :| 0 <= i < |entries| && Defines(entries[i], k);
        if i < n {
          assert init[i] == entries[i];
        }
      }
    }
  }

  /** The value of a key is the one given by the last entry for it. */
  lemma {:induction false} EntryMapValue(entries: seq<Option<Entry>>, k: string)
    requires k in EntryMap(entries)
    ensures exists i :: LastDefines(entries, k, i) && EntryMap(entries)[k] == entries[i].value.value
  {
    var n := |entries| - 1;
    var init := entries[..n];
    if Defines(entries[n], k) {
      assert LastDefines(entries, k, n);
    } else {
      assert k in EntryMap(init);
      EntryMapValue(init, k);
      var i :| LastDefines(init, k, i) && EntryMap(init)[k] == init[i].value.value;
      LastDefinesExtend(entries, k, i);
    }
  }

  /** The last definition in all but the final entry stays the last one
      when the final entry does not define the key. */
  lemma {:induction false} LastDefinesExtend(entries: seq<Option<Entry>>, k: string, i: int)
    requires entries != [] && !Defines(entries[|entries| - 1], k)
    requires LastDefines(entries[..|entries| - 1], k, i)
    ensures LastDefines(entries, k, i) && entries[i] == entries[..|entries| - 1][i]
  {
    var init := entries[..|entries| - 1];
    assert init[i] == entries[i];
    forall j | i < j < |entries| ensures !Defines(entries[j], k) {
      if j < |init| {
        assert init[j] == entries[j];
      }
    }
  }

  /** An entry that contributes nothing can be removed anywhere without
      changing the map. */
  lemma {:induction false} EntryMapSkipsNone(a: seq<Option<Entry>>, b: seq<Option<Entry>>)
    ensures EntryMap(a + [None] + b) == EntryMap(a + b)
  {
    if b == [] {
      assert a + [None] + b == a + [None];
      assert (a + [None])[..|a|] == a;
      assert a + b == a;
    } else {
      var b' := b[..|b| - 1];
      EntryMapSkipsNone(a, b');
      assert (a + [None] + b)[..|a + [None] + b| - 1] == a + [None] + b';
      assert (a + b)[..|a + b| - 1] == a + b';
    }
  }

  function HeaderEntries(header: seq<string>): seq<Option<Entry>>
  {
    seq(|header|, i requires 0 <= i < |header| => HeaderEntry(header[i]))
  }

  /** The metadata map of the header lines. */
  function HeaderMap(header: seq<string>): (m: map<string, string>)
    ensures forall k :: k in m ==> ':' !in k && IsTrimmed(k) && IsTrimmed(m[k])
  {
    var es := HeaderEntries(header);
    var m := EntryMap(es);
    assert forall i :: 0 <= i < |es| ==> es[i] == HeaderEntry(header[i]);
    m
  }

  lemma {:induction false} HeaderEntriesConcat(a: seq<string>, b: seq<string>)
    ensures HeaderEntries(a + b) == HeaderEntries(a) + HeaderEntries(b)
  {
    var l, r := HeaderEntries(a + b), HeaderEntries(a) + HeaderEntries(b);
    forall i | 0 <= i < |l| ensures l[i] == r[i] {
      if i < |a| {
        assert (a + b)[i] == a[i];
      } else {
        assert (a + b)[i] == b[i - |a|];
      }
    }
  }

  /** One more header line updates the metadata by its entry, if any. */
  lemma {:induction false} HeaderMapSnoc(header: seq<string>, line: string)
    ensures HeaderMap(header + [line]) ==
      match HeaderEntry(line)
      case None => HeaderMap(header)
      case Some(e) => HeaderMap(header)[e.key := e.value]
  {
    HeaderEntriesConcat(header, [line]);
    var es := HeaderEntries(header) + HeaderEntries([line]);
    assert es[..|es| - 1] == HeaderEntries(header);
  }

  /** A key is in the metadata exactly when some header line defines it, and
      its value is the one given by the last line that defines it. */
  lemma {:induction false} HeaderMapLookup(header: seq<string>, k: string)
    ensures k in HeaderMap(header) <==> exists i :: 0 <= i < |header| && Defines(HeaderEntry(header[i]), k)
    ensures k in HeaderMap(header) ==>
      exists i :: LastDefines(HeaderEntries(header), k, i) && HeaderMap(header)[k] == HeaderEntry(header[i]).value.value
  {
    HeaderMapMember(header, k);
    if k in HeaderMap(header) {
      EntryMapValue(HeaderEntries(header), k);
    }
  }

  lemma {:induction false} HeaderMapMember(header: seq<string>, k: string)
    ensures k in HeaderMap(header) <==> exists i :: 0 <= i < |header| && Defines(HeaderEntry(header[i]), k)
  {
    var es := HeaderEntries(header);
    EntryMapMember(es, k);
    assert forall i :: 0 <= i < |header| ==> es[i] == HeaderEntry(header[i]);
  }

  /** A blank, comment or colon-free header line can be removed anywhere
      without changing the metadata. */
  lemma {:induction false} IgnoredLineVanishes(a: seq<string>, line: string, b: seq<string>)
    requires HeaderEntry(line).None?
    ensures HeaderMap(a + [line] + b) == HeaderMap(a + b)
  {
    HeaderEntriesConcat(a + [line], b);
    HeaderEntriesConcat(a, [line]);
    HeaderEntriesConcat(a, b);
    assert HeaderEntries([line]) == [None];
    EntryMapSkipsNone(HeaderEntries(a), HeaderEntries(b));
  }

  // ---------------------------------------------------------------- parsing

  /** The first delimiter line at or after `from`. */
  function FindTerminator(lines: seq<string>, from: nat): (t: Option<nat>)
    requires from <= |lines|
    ensures t.Some? ==>
      && from <= t.value < |lines| && IsDelimiter(lines[t.value])
      && (forall k :: from <= k < t.value ==> !IsDelimiter(lines[k]))
    ensures t.None? ==> forall k :: from <= k < |lines| ==> !IsDelimiter(lines[k])
    decreases |lines| - from
  {
    if from == |lines| then None
    else if IsDelimiter(lines[from]) then Some(from)
    else FindTerminator(lines, from + 1)
  }

  /** The file opens with a delimiter line. */
  predicate Opens(lines: seq<string>) {
    |lines| > 0 && IsDelimiter(lines[0])
  }

  /** Line `t` is the first delimiter line after the opening one. */
  predicate ClosesAt(lines: seq<string>, t: int) {
    1 <= t < |lines| && IsDelimiter(lines[t]) && forall k :: 1 <= k < t ==> !IsDelimiter(lines[k])
  }

  /** A header block and the guidance that follows it. */
  datatype Parsed = Parsed(metadata: map<string, string>, guidance: string)

  /** The frontmatter parser, as a function of the file content. */
  function Parse(path: string, content: string): (r: Result<Parsed>)
    ensures var lines := SplitLines(content);
      && (r == Failure(MissingFrontmatter(path)) <==> !Opens(lines))
      && (r == Failure(UnterminatedFrontmatter(path)) <==>
            Opens(lines) && forall k :: 1 <= k < |lines| ==> !IsDelimiter(lines[k]))
      && (r.Failure? ==> r.error in {MissingFrontmatter(path), UnterminatedFrontmatter(path)})
      && (r.Success? ==>
            exists t :: ClosesAt(lines, t) && r.value == Parsed(HeaderMap(lines[1..t]), Trim(Join("\n", lines[t + 1..]))))
  {
    var lines := SplitLines(content);
    if |lines| == 0 || Trim(lines[0]) != Delimiter then Failure(MissingFrontmatter(path))
    else
      match FindTerminator(lines, 1)
      case None => Failure(UnterminatedFrontmatter(path))
      case Some(t) => Success(Parsed(HeaderMap(lines[1..t]), Trim(Join("\n", lines[t + 1..]))))
  }

  /** Only the first line decides whether the file opens: a file whose first
      line is not the delimiter fails as missing its frontmatter, whatever
      follows. */
  lemma {:induction false} FirstLineDecides(path: string, first: string, rest: string)
    requires NoNewline(first)
    ensures Parse(path, first + "\n" + rest) == Failure(MissingFrontmatter(path)) <==> !IsDelimiter(first)
  {
    SplitLinesFirst(first, rest);
  }

  /** A file that starts with a blank line has no frontmatter. */
  lemma {:induction false} LeadingBlankLine(path: string, rest: string)
    ensures Parse(path, "\n" + rest) == Failure(MissingFrontmatter(path))
  {
    assert "" + "\n" + rest == "\n" + rest;
    FirstLineDecides(path, "", rest);
  }

  /** HeaderMapSnoc for a window of the file's lines growing by one. */
  lemma {:induction false} HeaderMapStep(lines: seq<string>, idx: nat)
    requires 1 <= idx < |lines|
    ensures HeaderMap(lines[1..idx + 1]) ==
      match HeaderEntry(lines[idx])
      case None => HeaderMap(lines[1..idx])
      case Some(e) => HeaderMap(lines[1..idx])[e.key := e.value]
  {
    assert lines[1..idx + 1] == lines[1..idx] + [lines[idx]];
    HeaderMapSnoc(lines[1..idx], lines[idx]);
  }

  /** One header line of the parser's loop: blank, comment and colon-free
      lines are skipped, any other line sets its key to its value. */
  method StoreHeaderLine(metadata: map<string, string>, raw: string) returns (m: map<string, string>)
    ensures HeaderEntry(raw).None? ==> m == metadata
    ensures HeaderEntry(raw).Some? ==> m == metadata[HeaderEntry(raw).value.key := HeaderEntry(raw).value.value]
  {
    var line := Trim(raw);
    if line == "" || line[0] == '#' {
      assert HeaderEntry(raw) == None;
      return metadata;
    }
    if ':' !in line {
      assert HeaderEntry(raw) == None;
      return metadata;
    }
    var colon := IndexOf(line, ':');
    assert HeaderEntry(raw) == Some(Entry(Trim(line[..colon]), Trim(line[colon + 1..])));
    m := metadata[Trim(line[..colon]) := Trim(line[colon + 1..])];
  }

  /** The parser as the source runs it: one pass over the lines after the
      opening delimiter, filling the metadata map until the closing one. */
  method ParseSkillFile(path: string, content: string) returns (r: Result<Parsed>)
    ensures r == Parse(path, content)
  {
    var lines := SplitLines(content);
    if |lines| == 0 || Trim(lines[0]) != Delimiter {
      return Failure(MissingFrontmatter(path));
    }
    var metadata: map<string, string> := map[];
    var endIndex := -1;
    for idx := 1 to |lines|
      invariant endIndex == -1
      invariant metadata == HeaderMap(lines[1..idx])
      invariant FindTerminator(lines, 1) == FindTerminator(lines, idx)
    {
      HeaderMapStep(lines, idx);
      if Trim(lines[idx]) == Delimiter {
        endIndex := idx;
        break;
      }
      metadata := StoreHeaderLine(metadata, lines[idx]);
    }
    if endIndex == -1 {
      assert FindTerminator(lines, 1) == None;
      return Failure(UnterminatedFrontmatter(path));
    }
    assert FindTerminator(lines, 1) == Some(endIndex);
    var guidance := Trim(Join("\n", lines[endIndex + 1..]));
    r := Success(Parsed(metadata, guidance));
  }

  /** A file that opens with a delimiter and closes it at line `t` parses to
      the header of lines 1 .. t-1 and the stripped rest. */
  lemma {:induction false} ParseClosesAt(path: string, content: string, t: nat)
    requires Opens(SplitLines(content)) && ClosesAt(SplitLines(content), t)
    ensures var lines := SplitLines(content);
      Parse(path, content) == Success(Parsed(HeaderMap(lines[1..t]), Trim(Join("\n", lines[t + 1..]))))
  {
    var lines := SplitLines(content);
    assert FindTerminator(lines, 1) == Some(t);
  }

  /** Nothing after the closing delimiter affects the metadata: two files
      whose lines agree up to it parse to the same metadata. */
  lemma {:induction false} MetadataIgnoresBody(path: string, c1: string, c2: string, t: nat)
    requires Opens(SplitLines(c1)) && ClosesAt(SplitLines(c1), t)
    requires |SplitLines(c2)| > t && SplitLines(c1)[..t + 1] == SplitLines(c2)[..t + 1]
    ensures Parse(path, c1).Success? && Parse(path, c2).Success?
    ensures Parse(path, c1).value.metadata == Parse(path, c2).value.metadata
  {
    var l1, l2 := SplitLines(c1), SplitLines(c2);
    SameFrontmatter(l1, l2, t);
    ParseClosesAt(path, c1, t);
    ParseClosesAt(path, c2, t);
  }

  /** Line sequences agreeing up to a terminator share its frontmatter. */
  lemma {:induction false} SameFrontmatter(l1: seq<string>, l2: seq<string>, t: nat)
    requires Opens(l1) && ClosesAt(l1, t)
    requires |l2| > t && l1[..t + 1] == l2[..t + 1]
    ensures Opens(l2) && ClosesAt(l2, t) && l1[1..t] == l2[1..t]
  {
    forall k | 0 <= k <= t ensures l1[k] == l2[k] {
      assert l1[..t + 1][k] == l2[..t + 1][k];
    }
    assert l1[1..t] == l1[..t + 1][1..t];
    assert l2[1..t] == l2[..t + 1][1..t];
  }

  // ---------------------------------------------------------------- list values

  /** Python's `tuple(p.strip() for p in pieces if p.strip())`. */
  function StripNonEmpty(pieces: seq<string>): (r: seq<string>)
    ensures |r| <= |pieces|
    ensures forall i :: 0 <= i < |r| ==> r[i] != [] && IsTrimmed(r[i])
  {
    if pieces == [] then []
    else (if Trim(pieces[0]) == "" then [] else [Trim(pieces[0])]) + StripNonEmpty(pieces[1..])
  }

  lemma {:induction false} StripNonEmptyConcat(x: seq<string>, y: seq<string>)
    ensures StripNonEmpty(x + y) == StripNonEmpty(x) + StripNonEmpty(y)
  {
    if x != [] {
      assert (x + y)[0] == x[0] && (x + y)[1..] == x[1..] + y;
      StripNonEmptyConcat(x[1..], y);
    } else {
      assert x + y == y;
    }
  }

  lemma {:induction false} StripNonEmptyKeepsOut(pieces: seq<string>, c: char)
    requires forall i :: 0 <= i < |pieces| ==> c !in pieces[i]
    ensures forall i :: 0 <= i < |StripNonEmpty(pieces)| ==> c !in StripNonEmpty(pieces)[i]
  {
    if pieces != [] {
      TrimKeepsOut(pieces[0], c);
      StripNonEmptyKeepsOut(pieces[1..], c);
    }
  }

  /** A value split on `sep`, each piece stripped, empty pieces dropped. */
  function SplitItems(value: string, sep: char): (r: seq<string>)
    ensures forall i :: 0 <= i < |r| ==> r[i] != [] && IsTrimmed(r[i]) && sep !in r[i]
  {
    StripNonEmptyKeepsOut(Split(value, sep), sep);
    StripNonEmpty(Split(value, sep))
  }

  /** The `tags` field: a comma-separated list. */
  function SplitCsv(value: string): (r: seq<string>)
    ensures forall i :: 0 <= i < |r| ==> r[i] != [] && IsTrimmed(r[i]) && ',' !in r[i]
  {
    SplitItems(value, ',')
  }

  /** The `examples` field: a pipe-separated list. */
  function SplitExamples(value: string): (r: seq<string>)
    ensures forall i :: 0 <= i < |r| ==> r[i] != [] && IsTrimmed(r[i]) && '|' !in r[i]
  {
    SplitItems(value, '|')
  }

  /** An empty or blank value gives no items (not one empty item). */
  lemma {:induction false} SplitItemsBlank(value: string, sep: char)
    requires AllSpace(value)
    ensures SplitItems(value, sep) == []
  {
    SplitAllSpace(value, sep);
    StripNonEmptyBlank(Split(value, sep));
  }

  lemma {:induction false} StripNonEmptyBlank(pieces: seq<string>)
    requires forall i :: 0 <= i < |pieces| ==> AllSpace(pieces[i])
    ensures StripNonEmpty(pieces) == []
  {
    if pieces != [] {
      TrimEmptyIff(pieces[0]);
      StripNonEmptyBlank(pieces[1..]);
    }
  }

  /** A value without a separator and with some text gives one item, the
      stripped value. */
  lemma {:induction false} SplitItemsSingle(value: string, sep: char)
    requires sep !in value && !AllSpace(value)
    ensures SplitItems(value, sep) == [Trim(value)]
  {
    SplitNoSep(value, sep);
    TrimEmptyIff(value);
  }

  /** Items keep their source order and duplicates are kept: the items of a
      value are the items left of a separator followed by those right of it. */
  lemma {:induction false} SplitItemsConcat(a: string, b: string, sep: char)
    ensures SplitItems(a + [sep] + b, sep) == SplitItems(a, sep) + SplitItems(b, sep)
  {
    SplitConcat(a, b, sep);
    StripNonEmptyConcat(Split(a, sep), Split(b, sep));
  }

  /** Whitespace before the next separator does not change the items. */
  lemma {:induction false} SplitItemsPadRight(x: string, pad: string, sep: char)
    requires AllSpace(pad) && !IsSpace(sep)
    ensures SplitItems(x + pad, sep) == SplitItems(x, sep)
    decreases |x|
  {
    assert sep !in pad;
    if sep !in x {
      SplitNoSep(x, sep);
      SplitNoSep(x + pad, sep);
      TrimAppendSpaces(x, pad);
    } else {
      var i := IndexOf(x, sep);
      assert x == x[..i] + [sep] + x[i + 1..];
      assert x + pad == x[..i] + [sep] + (x[i + 1..] + pad);
      SplitItemsConcat(x[..i], x[i + 1..], sep);
      SplitItemsConcat(x[..i], x[i + 1..] + pad, sep);
      SplitItemsPadRight(x[i + 1..], pad, sep);
    }
  }

  /** Whitespace after a separator does not change the items. */
  lemma {:induction false} SplitItemsPadLeft(pad: string, y: string, sep: char)
    requires AllSpace(pad) && !IsSpace(sep)
    ensures SplitItems(pad + y, sep) == SplitItems(y, sep)
  {
    assert sep !in pad;
    if sep !in y {
      SplitNoSep(y, sep);
      SplitNoSep(pad + y, sep);
      TrimPrependSpaces(pad, y);
    } else {
      var i := IndexOf(y, sep);
      assert y == y[..i] + [sep] + y[i + 1..];
      assert pad + y == (pad + y[..i]) + [sep] + y[i + 1..];
      SplitItemsConcat(y[..i], y[i + 1..], sep);
      SplitItemsConcat(pad + y[..i], y[i + 1..], sep);
      SplitNoSep(y[..i], sep);
      SplitNoSep(pad + y[..i], sep);
      TrimPrependSpaces(pad, y[..i]);
    }
  }

  /** Splitting undoes joining: items that are stripped, non-empty and free of
      the separator, joined with the separator padded by whitespace on either
      side (", " or " | "), split back to the same items. */
  lemma {:induction false} SplitItemsJoin(items: seq<string>, left: string, sep: char, right: string)
    requires forall i :: 0 <= i < |items| ==> items[i] != [] && IsTrimmed(items[i]) && sep !in items[i]
    requires AllSpace(left) && AllSpace(right) && !IsSpace(sep)
    ensures SplitItems(Join(left + [sep] + right, items), sep) == items
  {
    var glue := left + [sep] + right;
    if |items| == 0 {
      SplitItemsBlank("", sep);
    } else if |items| == 1 {
      SplitItemsSingle(items[0], sep);
      TrimOfTrimmed(items[0]);
    } else {
      var x, rest := items[0], Join(glue, items[1..]);
      assert Join(glue, items) == (x + left) + [sep] + (right + rest);
      SplitItemsConcat(x + left, right + rest, sep);
      SplitItemsPadRight(x, left, sep);
      SplitItemsPadLeft(right, rest, sep);
      SplitItemsSingle(x, sep);
      TrimOfTrimmed(x);
      SplitItemsJoin(items[1..], left, sep, right);
    }
  }

  // ---------------------------------------------------------------- validation

  /** The keys of `keys` that `metadata` lacks, in the order of `keys`. */
  function MissingFrom(keys: seq<string>, metadata: map<string, string>): (r: seq<string>)
    ensures |r| <= |keys|
    ensures forall k :: k in r <==> k in keys && k !in metadata
  {
    if keys == [] then []
    else (if keys[0] in metadata then [] else [keys[0]]) + MissingFrom(keys[1..], metadata)
  }

  /** The missing keys are listed in the order of the key list. */
  lemma {:induction false} MissingFromConcat(a: seq<string>, b: seq<string>, metadata: map<string, string>)
    ensures MissingFrom(a + b, metadata) == MissingFrom(a, metadata) + MissingFrom(b, metadata)
  {
    if a != [] {
      assert (a + b)[0] == a[0] && (a + b)[1..] == a[1..] + b;
      MissingFromConcat(a[1..], b, metadata);
      var head := if a[0] in metadata then [] else [a[0]];
      assert MissingFrom(a + b, metadata) == head + MissingFrom(a[1..] + b, metadata);
      AppendAssoc(head, MissingFrom(a[1..], metadata), MissingFrom(b, metadata));
    } else {
      assert a + b == b;
    }
  }

  /** A header without `description` but with the other four required keys
      is reported as missing exactly `description`. */
  lemma {:induction false} MissingOnlyDescription(path: string, metadata: map<string, string>)
    requires "id" in metadata && "name" in metadata && "tags" in metadata && "examples" in metadata
    requires "description" !in metadata
    ensures MissingFrom(RequiredKeys, metadata) == ["description"]
    ensures Message(MissingRequiredFields(path, MissingFrom(RequiredKeys, metadata)))
      == "Missing required " + "fields [description]" + " in " + path
  {
    MissingDescriptionMessage(path);
    var keys := RequiredKeys;
    assert keys[0] == "id" && keys[1] == "name" && keys[2] == "description";
    assert keys[3] == "tags" && keys[4] == "examples" && |keys| == 5;
    assert MissingFrom(keys[4..], metadata) == [];
    assert MissingFrom(keys[3..], metadata) == [];
    assert MissingFrom(keys[2..], metadata) == ["description"];
    assert MissingFrom(keys[1..], metadata) == ["description"];
  }

  /** The error text for a header that lacks only `description`. */
  lemma {:induction false} MissingDescriptionMessage(path: string)
    ensures Message(MissingRequiredFields(path, ["description"]))
      == "Missing required " + "fields [description]" + " in " + path
  {
    assert Join(", ", ["description"]) == "description";
  }

  /** When no key of `keys` is missing, every one of them is in `metadata`. */
  lemma {:induction false} NoneMissing(keys: seq<string>, metadata: map<string, string>)
    requires MissingFrom(keys, metadata) == []
    ensures forall i :: 0 <= i < |keys| ==> keys[i] in metadata
  {
    if keys != [] {
      NoneMissing(keys[1..], metadata);
      assert forall i :: 1 <= i < |keys| ==> keys[i] == keys[1..][i - 1];
    }
  }

  /** When no required key is missing, each of the five is present. */
  lemma {:induction false} RequiredPresent(metadata: map<string, string>)
    requires MissingFrom(RequiredKeys, metadata) == []
    ensures "id" in metadata && "name" in metadata && "description" in metadata
    ensures "tags" in metadata && "examples" in metadata
  {
    NoneMissing(RequiredKeys, metadata);
    assert RequiredKeys[0] == "id" && RequiredKeys[1] == "name" && RequiredKeys[2] == "description";
    assert RequiredKeys[3] == "tags" && RequiredKeys[4] == "examples";
  }

  /** Validates a parsed header and builds the SkillDefinition from it. */
  function FromHeader(path: string, metadata: map<string, string>, guidance: string): (r: Result<SkillDefinition>)
    ensures r.Failure? <==> exists k :: k in RequiredKeys && k !in metadata
    ensures r.Failure? ==> r.error == MissingRequiredFields(path, MissingFrom(RequiredKeys, metadata))
    ensures r.Success? ==>
      && r.value.id == metadata["id"]
      && r.value.name == metadata["name"]
      && r.value.description == metadata["description"]
      && r.value.tags == SplitCsv(metadata["tags"])
      && r.value.examples == SplitExamples(metadata["examples"])
      && r.value.guidance == guidance
  {
    var missing := MissingFrom(RequiredKeys, metadata);
    if missing != [] then
      assert missing[0] in missing;
      Failure(MissingRequiredFields(path, missing))
    else
      RequiredPresent(metadata);
      Success(SkillDefinition(
        metadata["id"],
        metadata["name"],
        metadata["description"],
        SplitCsv(metadata["tags"]),
        SplitExamples(metadata["examples"]),
        guidance))
  }

  /** Builds a SkillDefinition from a file's content, or says why not. */
  function Load(path: string, content: string): (r: Result<SkillDefinition>)
    ensures Parse(path, content).Failure? ==> r == Failure(Parse(path, content).error)
    ensures Parse(path, content).Success? ==>
      r == FromHeader(path, Parse(path, content).value.metadata, Parse(path, content).value.guidance)
  {
    match Parse(path, content)
    case Failure(e) => Failure(e)
    case Success(Parsed(metadata, guidance)) => FromHeader(path, metadata, guidance)
  }

  // ---------------------------------------------------------------- roles

  /** Reads and loads one skill file. */
  function ReadSkill(path: string, files: map<string, string>): (r: Result<SkillDefinition>)
    ensures r.Failure? ==> r.error.path == path
    ensures r.Success? ==> path in files && r == Load(path, files[path])
    ensures path !in files ==> r == Failure(FileNotFound(path))
    ensures path in files ==> r == Load(path, files[path])
  {
    if path in files then Load(path, files[path]) else Failure(FileNotFound(path))
  }

  /** Result `i` is the first failure of `rs`. */
  predicate FirstFailed<T>(rs: seq<Result<T>>, i: int) {
    && 0 <= i < |rs|
    && rs[i].Failure?
    && forall j :: 0 <= j < i ==> rs[j].Success?
  }

  /** The values of `rs` when all succeed, else its first failure. */
  function Collect<T>(rs: seq<Result<T>>): (r: Result<seq<T>>)
    ensures r.Success? <==> forall i :: 0 <= i < |rs| ==> rs[i].Success?
    ensures r.Success? ==>
      && |r.value| == |rs|
      && (forall i :: 0 <= i < |rs| ==> rs[i] == Success(r.value[i]))
    ensures r.Failure? ==> exists i :: FirstFailed(rs, i) && rs[i] == Failure(r.error)
  {
    if rs == [] then Success([])
    else
      match rs[0]
      case Failure(e) =>
        assert FirstFailed(rs, 0);
        Failure(e)
      case Success(d) =>
        var rest := Collect(rs[1..]);
        assert forall i :: 1 <= i < |rs| ==> rs[1..][i - 1] == rs[i];
        match rest
        case Failure(e) =>
          var i :| FirstFailed(rs[1..], i) && rs[1..][i] == Failure(e);
          assert FirstFailed(rs, i + 1);
          Failure(e)
        case Success(ds) =>
          Success([d] + ds)
  }

  /** Path `i` is the first of `paths` whose skill cannot be loaded. */
  predicate FirstFailure(paths: seq<string>, files: map<string, string>, i: int) {
    && 0 <= i < |paths|
    && ReadSkill(paths[i], files).Failure?
    && forall j :: 0 <= j < i ==> ReadSkill(paths[j], files).Success?
  }

  /** The load result of every path, in order. */
  function Reads(paths: seq<string>, files: map<string, string>): (rs: seq<Result<SkillDefinition>>)
    ensures |rs| == |paths|
    ensures forall i :: 0 <= i < |paths| ==> rs[i] == ReadSkill(paths[i], files)
  {
    if paths == [] then [] else [ReadSkill(paths[0], files)] + Reads(paths[1..], files)
  }

  /** Loads every path in order; the first failure is the result. */
  function LoadAll(paths: seq<string>, files: map<string, string>): (r: Result<seq<SkillDefinition>>)
    ensures r.Success? <==> forall i :: 0 <= i < |paths| ==> ReadSkill(paths[i], files).Success?
    ensures r.Success? ==>
      && |r.value| == |paths|
      && (forall i :: 0 <= i < |paths| ==> ReadSkill(paths[i], files) == Success(r.value[i]))
    ensures r.Failure? ==>
      exists i :: FirstFailure(paths, files, i) && ReadSkill(paths[i], files) == Failure(r.error)
  {
    var rs := Reads(paths, files);
    var r := Collect(rs);
    if r.Failure? then
      var i :| FirstFailed(rs, i) && rs[i] == Failure(r.error);
      assert FirstFailure(paths, files, i);
      r
    else
      r
  }

  /** The skills of a role: none for a role the table does not know, else
      one per registered path in table order, or the first load failure. */
  function GetSkills(role: string, files: map<string, string>): (r: Result<seq<SkillDefinition>>)
    ensures role !in RoleSkillPaths ==> r == Success([])
    ensures role in RoleSkillPaths ==>
      var paths := RoleSkillPaths[role];
      && (r.Success? <==> forall i :: 0 <= i < |paths| ==> ReadSkill(paths[i], files).Success?)
      && (r.Success? ==>
            && |r.value| == |paths| > 0
            && (forall i :: 0 <= i < |paths| ==> ReadSkill(paths[i], files) == Success(r.value[i])))
      && (r.Failure? ==>
            exists i :: FirstFailure(paths, files, i) && ReadSkill(paths[i], files) == Failure(r.error))
  {
    var paths := if role in RoleSkillPaths then RoleSkillPaths[role] else [];
    if paths == [] then Success([]) else LoadAll(paths, files)
  }

  /** When every path loads, the load of them all is exactly their skills, in order. */
  lemma {:induction false} LoadAllLoads(paths: seq<string>, files: map<string, string>, ds: seq<SkillDefinition>)
    requires |ds| == |paths|
    requires forall i :: 0 <= i < |paths| ==> ReadSkill(paths[i], files) == Success(ds[i])
    ensures LoadAll(paths, files) == Success(ds)
  {
    var r := LoadAll(paths, files);
    assert r.Success?;
    assert r.value == ds;
  }

  /** A known role whose files all load gets exactly their skills, in table order. */
  lemma {:induction false} GetSkillsLoads(role: string, files: map<string, string>, ds: seq<SkillDefinition>)
    requires role in RoleSkillPaths
    requires |ds| == |RoleSkillPaths[role]|
    requires forall i :: 0 <= i < |ds| ==> ReadSkill(RoleSkillPaths[role][i], files) == Success(ds[i])
    ensures GetSkills(role, files) == Success(ds)
  {
    RoleSkillPathsShape();
    LoadAllLoads(RoleSkillPaths[role], files, ds);
  }

  // ---------------------------------------------------------------- rendering

  // The two long texts are written in pieces so that the verifier expands
  // each piece into its characters.
  const BlockHeader: string := "Auto-attached " + "skills from " + "SKILL.md " + "for this agent:"
  const BlockFooter: string := "Always prefer " + "these skills " + "when the user " + "request matches " + "their scope."
  const GuidanceHeading: string := "  Guidance:"
  const BulletPrefix: string := "  - "

  /** The summary line of one skill. */
  function SkillBullet(skill: SkillDefinition): (b: string)
    ensures IsSummary(b)
  {
    "- " + skill.name + ": " + skill.description + " (tags: " + Join(", ", skill.tags) + ")"
  }

  /** One guidance bullet per text, in order. */
  function Bullets(texts: seq<string>): (r: seq<string>)
    ensures |r| == |texts|
    ensures forall i :: 0 <= i < |texts| ==> r[i] == BulletPrefix + texts[i]
  {
    if texts == [] then [] else [BulletPrefix + texts[0]] + Bullets(texts[1..])
  }

  lemma {:induction false} BulletsConcat(a: seq<string>, b: seq<string>)
    ensures Bullets(a + b) == Bullets(a) + Bullets(b)
  {
    var l, r := Bullets(a + b), Bullets(a) + Bullets(b);
    forall i | 0 <= i < |l| ensures l[i] == r[i] {
      if i < |a| {
        assert (a + b)[i] == a[i];
      } else {
        assert (a + b)[i] == b[i - |a|];
      }
    }
  }

  /** A guidance bullet: the bullet prefix, then a non-empty stripped text. */
  predicate IsGuidanceBullet(line: string) {
    && |line| > |BulletPrefix|
    && line[..|BulletPrefix|] == BulletPrefix
    && IsTrimmed(line[|BulletPrefix|..])
  }

  /** One bullet per non-blank line, stripped. */
  function GuidanceBullets(lines: seq<string>): (r: seq<string>)
    ensures |r| <= |lines|
    ensures forall i :: 0 <= i < |r| ==> IsGuidanceBullet(r[i])
  {
    var texts := StripNonEmpty(lines);
    var r := Bullets(texts);
    assert forall i :: 0 <= i < |r| ==> r[i][|BulletPrefix|..] == texts[i];
    r
  }

  /** Lines that are already stripped and non-empty are kept as they are. */
  lemma {:induction false} StripNonEmptyClean(ls: seq<string>)
    requires forall i :: 0 <= i < |ls| ==> ls[i] != [] && IsTrimmed(ls[i])
    ensures StripNonEmpty(ls) == ls
  {
    if ls != [] {
      TrimOfTrimmed(ls[0]);
      StripNonEmptyClean(ls[1..]);
    }
  }

  /** The bullets of two runs of guidance lines are those of each, in order. */
  lemma {:induction false} GuidanceBulletsConcat(a: seq<string>, b: seq<string>)
    ensures GuidanceBullets(a + b) == GuidanceBullets(a) + GuidanceBullets(b)
  {
    StripNonEmptyConcat(a, b);
    BulletsConcat(StripNonEmpty(a), StripNonEmpty(b));
  }

  /** A blank guidance line adds no bullet, wherever it stands. */
  lemma {:induction false} GuidanceBulletsBlank(a: seq<string>, blank: string, b: seq<string>)
    requires Trim(blank) == ""
    ensures GuidanceBullets(a + [blank] + b) == GuidanceBullets(a + b)
  {
    GuidanceBulletsConcat(a + [blank], b);
    GuidanceBulletsConcat(a, [blank]);
    GuidanceBulletsConcat(a, b);
    assert StripNonEmpty([blank]) == [];
    assert GuidanceBullets(a + [blank]) == GuidanceBullets(a);
  }

  /** The block lines of one skill. */
  function SkillLines(skill: SkillDefinition): (r: seq<string>)
    ensures |r| >= 1 && r[0] == SkillBullet(skill)
    ensures |r| == 1 <==> skill.guidance == ""
    ensures forall i :: 1 <= i < |r| ==> !IsSummary(r[i])
    ensures |r| > 1 ==> r[1] == GuidanceHeading
    ensures forall i :: 2 <= i < |r| ==> IsGuidanceBullet(r[i])
  {
    [SkillBullet(skill)]
      + (if skill.guidance != "" then [GuidanceHeading] + GuidanceBullets(SplitLines(skill.guidance)) else [])
  }

  /** The block lines of all skills, in order. */
  function SkillsLines(skills: seq<SkillDefinition>): (r: seq<string>)
    ensures |r| >= |skills|
    ensures skills != [] ==> r[0] == SkillBullet(skills[0])
  {
    if skills == [] then []
    else SkillsLines(skills[..|skills| - 1]) + SkillLines(skills[|skills| - 1])
  }

  /** The lines of the instruction block for the given skills. */
  function InstructionLines(skills: seq<SkillDefinition>): (r: seq<string>)
    ensures r == [] <==> skills == []
    ensures skills != [] ==> |r| >= 3 && r[1] == SkillBullet(skills[0])
  {
    if skills == [] then [] else [BlockHeader] + SkillsLines(skills) + [BlockFooter]
  }

  /** Each further guidance line adds at most its own bullet. */
  lemma {:induction false} GuidanceBulletsSnoc(lines: seq<string>, j: nat)
    requires j < |lines|
    ensures GuidanceBullets(lines[..j + 1])
      == GuidanceBullets(lines[..j]) + (if Trim(lines[j]) != "" then [BulletPrefix + Trim(lines[j])] else [])
  {
    assert lines[..j + 1] == lines[..j] + [lines[j]];
    StripNonEmptyConcat(lines[..j], [lines[j]]);
    BulletsConcat(StripNonEmpty(lines[..j]), StripNonEmpty([lines[j]]));
  }

  /** Guidance made of clean lines renders as the heading and one bullet per
      line, in the order of the lines. */
  lemma {:induction false} SkillLinesGuidance(skill: SkillDefinition, ls: seq<string>)
    requires ls != [] && skill.guidance == Join("\n", ls)
    requires forall i :: 0 <= i < |ls| ==> ls[i] != [] && IsTrimmed(ls[i]) && '\n' !in ls[i]
    ensures SkillLines(skill) == [SkillBullet(skill), GuidanceHeading] + Bullets(ls)
  {
    SplitLinesJoin(ls);
    StripNonEmptyClean(ls);
  }

  /** Appends the summary bullet of `skill` and, when it has guidance, the
      guidance heading and one bullet per non-blank guidance line. */
  method AppendSkillLines(lines: seq<string>, skill: SkillDefinition) returns (out: seq<string>)
    ensures out == lines + SkillLines(skill)
  {
    var tags := Join(", ", skill.tags);
    out := lines + ["- " + skill.name + ": " + skill.description + " (tags: " + tags + ")"];
    if skill.guidance != "" {
      out := out + [GuidanceHeading];
      var guidanceLines := SplitLines(skill.guidance);
      ghost var prefix := out;
      for j := 0 to |guidanceLines|
        invariant out == prefix + GuidanceBullets(guidanceLines[..j])
      {
        GuidanceBulletsSnoc(guidanceLines, j);
        var text := Trim(guidanceLines[j]);
        if text != "" {
          AppendAssoc(prefix, GuidanceBullets(guidanceLines[..j]), [BulletPrefix + text]);
          out := out + [BulletPrefix + text];
        }
      }
      assert guidanceLines[..|guidanceLines|] == guidanceLines;
      AppendAssoc(lines, [SkillBullet(skill)], [GuidanceHeading]);
      AppendAssoc(lines, [SkillBullet(skill)] + [GuidanceHeading], GuidanceBullets(guidanceLines));
      AppendAssoc([SkillBullet(skill)], [GuidanceHeading], GuidanceBullets(guidanceLines));
    }
  }

  /** The lines of the first `i` skills extend those of the first `i - 1`;
      at `i == |skills|` they are those of all skills. */
  lemma {:induction false} SkillsLinesSnoc(skills: seq<SkillDefinition>, i: nat)
    requires i <= |skills|
    ensures i < |skills| ==> SkillsLines(skills[..i + 1]) == SkillsLines(skills[..i]) + SkillLines(skills[i])
    ensures SkillsLines(skills[..|skills|]) == SkillsLines(skills)
  {
    if i < |skills| {
      assert skills[..i + 1][..i] == skills[..i];
    }
    assert skills[..|skills|] == skills;
  }

  lemma {:induction false} RenderStep(skills: seq<SkillDefinition>, i: nat, lines: seq<string>)
    requires i < |skills| && lines == [BlockHeader] + SkillsLines(skills[..i])
    ensures lines + SkillLines(skills[i]) == [BlockHeader] + SkillsLines(skills[..i + 1])
  {
    SkillsLinesSnoc(skills, i);
    AppendAssoc([BlockHeader], SkillsLines(skills[..i]), SkillLines(skills[i]));
  }

  /** The lines of the block for a non-empty list of skills, appended one
      by one in the order of the source's loop. */
  method RenderLines(skills: seq<SkillDefinition>) returns (lines: seq<string>)
    requires skills != []
    ensures lines == InstructionLines(skills)
  {
    lines := [BlockHeader];
    for i := 0 to |skills|
      invariant lines == [BlockHeader] + SkillsLines(skills[..i])
    {
      RenderStep(skills, i, lines);
      lines := AppendSkillLines(lines, skills[i]);
    }
    SkillsLinesSnoc(skills, |skills|);
    lines := lines + [BlockFooter];
  }

  /** The instruction block of a role; the failure of loading any of the
      role's skills is passed on. */
  method BuildInstructionBlock(role: string, files: map<string, string>) returns (r: Result<string>)
    ensures GetSkills(role, files).Failure? ==> r == Failure(GetSkills(role, files).error)
    ensures GetSkills(role, files).Success? ==>
      r == Success(Join("\n", InstructionLines(GetSkills(role, files).value)))
    ensures r == Success("") <==> GetSkills(role, files) == Success([])
    ensures r.Success? ==> SplitLines(r.value) == InstructionLines(GetSkills(role, files).value)
    ensures r.Success? && r.value != "" ==>
      var lines := SplitLines(r.value);
      && lines[0] == BlockHeader && lines[|lines| - 1] == BlockFooter
      && Summaries(lines) == SkillBullets(GetSkills(role, files).value)
  {
    var loaded := GetSkills(role, files);
    if loaded.Failure? {
      return Failure(loaded.error);
    }
    var skills := loaded.value;
    if |skills| == 0 {
      return Success("");
    }
    var lines := RenderLines(skills);
    JoinStartsWith("\n", lines);
    LoadedSkillsAreSingleLine(role, files);
    InstructionLinesSplit(skills);
    InstructionLinesShape(skills);
    r := Success(Join("\n", lines));
  }

  /** A skill's summary line; every other line of the block starts with a
      blank or a letter. */
  predicate IsSummary(line: string) {
    line != [] && line[0] == '-'
  }

  /** The summary lines among `lines`, in order. */
  function Summaries(lines: seq<string>): (r: seq<string>)
    ensures |r| <= |lines|
    ensures forall i :: 0 <= i < |r| ==> IsSummary(r[i])
  {
    if lines == [] then []
    else (if IsSummary(lines[0]) then [lines[0]] else []) + Summaries(lines[1..])
  }

  lemma {:induction false} SummariesConcat(a: seq<string>, b: seq<string>)
    ensures Summaries(a + b) == Summaries(a) + Summaries(b)
  {
    if a != [] {
      assert (a + b)[0] == a[0] && (a + b)[1..] == a[1..] + b;
      SummariesConcat(a[1..], b);
      var head := if IsSummary(a[0]) then [a[0]] else [];
      AppendAssoc(head, Summaries(a[1..]), Summaries(b));
    } else {
      assert a + b == b;
    }
  }

  lemma {:induction false} SummariesNone(lines: seq<string>)
    requires forall i :: 0 <= i < |lines| ==> !IsSummary(lines[i])
    ensures Summaries(lines) == []
  {
    if lines != [] {
      SummariesNone(lines[1..]);
    }
  }

  /** The summary line of every skill, in order. */
  function SkillBullets(skills: seq<SkillDefinition>): (r: seq<string>)
    ensures |r| == |skills|
    ensures forall i :: 0 <= i < |skills| ==> r[i] == SkillBullet(skills[i])
  {
    if skills == [] then []
    else SkillBullets(skills[..|skills| - 1]) + [SkillBullet(skills[|skills| - 1])]
  }

  /** The lines of one skill hold exactly one summary line, its own. */
  lemma {:induction false} SkillLinesSummary(skill: SkillDefinition)
    ensures Summaries(SkillLines(skill)) == [SkillBullet(skill)]
  {
    var rest := SkillLines(skill)[1..];
    assert SkillLines(skill) == [SkillBullet(skill)] + rest;
    SummariesConcat([SkillBullet(skill)], rest);
    assert Summaries([SkillBullet(skill)]) == [SkillBullet(skill)];
    forall i | 0 <= i < |rest| ensures !IsSummary(rest[i]) {
      assert rest[i][0] == ' ';
    }
    SummariesNone(rest);
  }

  /** The lines of the skills hold one summary line per skill, in order. */
  lemma {:induction false} SkillsLinesSummaries(skills: seq<SkillDefinition>)
    ensures Summaries(SkillsLines(skills)) == SkillBullets(skills)
  {
    if skills != [] {
      var init, last := skills[..|skills| - 1], skills[|skills| - 1];
      SkillsLinesSummaries(init);
      SummariesConcat(SkillsLines(init), SkillLines(last));
      SkillLinesSummary(last);
    }
  }

  /** A non-empty block starts with the header line, ends with the footer
      line and holds exactly one summary line per skill, in order. */
  lemma {:induction false} InstructionLinesShape(skills: seq<SkillDefinition>)
    requires skills != []
    ensures var lines := InstructionLines(skills);
      && lines[0] == BlockHeader && lines[|lines| - 1] == BlockFooter
      && Summaries(lines) == SkillBullets(skills)
  {
    var body := SkillsLines(skills);
    SkillsLinesSummaries(skills);
    BlockTextsShape();
    assert Summaries([BlockHeader]) == [] && Summaries([BlockFooter]) == [];
    SummariesConcat([BlockHeader], body);
    SummariesConcat([BlockHeader] + body, [BlockFooter]);
  }

  // ---------------------------------------------------------------- line structure

  predicate NoNewline(s: string) {
    '\n' !in s
  }

  /** No field shown on a skill's summary line holds a newline. */
  predicate SingleLine(skill: SkillDefinition) {
    NoNewline(skill.name) && NoNewline(skill.description)
      && forall i :: 0 <= i < |skill.tags| ==> NoNewline(skill.tags[i])
  }

  lemma {:induction false} HeaderEntrySingleLine(raw: string)
    requires NoNewline(raw)
    ensures HeaderEntry(raw).Some? ==> NoNewline(HeaderEntry(raw).value.key) && NoNewline(HeaderEntry(raw).value.value)
  {
    var line := Trim(raw);
    TrimKeepsOut(raw, '\n');
    if HeaderEntry(raw).Some? {
      var pre, post :| line == pre + ":" + post && ':' !in pre && HeaderEntry(raw).value == Entry(Trim(pre), Trim(post));
      NotInConcat(pre + ":", post, '\n');
      NotInConcat(pre, ":", '\n');
      TrimKeepsOut(pre, '\n');
      TrimKeepsOut(post, '\n');
    }
  }

  /** Header lines without newlines give metadata values without newlines. */
  lemma {:induction false} HeaderMapSingleLine(header: seq<string>)
    requires forall i :: 0 <= i < |header| ==> NoNewline(header[i])
    ensures forall k :: k in HeaderMap(header) ==> NoNewline(HeaderMap(header)[k])
  {
    if header != [] {
      var init := header[..|header| - 1];
      assert forall i :: 0 <= i < |init| ==> init[i] == header[i];
      assert header == init + [header[|header| - 1]];
      HeaderMapSingleLine(init);
      HeaderEntrySingleLine(header[|header| - 1]);
      HeaderMapSnoc(init, header[|header| - 1]);
    }
  }

  lemma {:induction false} SplitItemsSingleLine(value: string, sep: char)
    requires NoNewline(value)
    ensures forall i :: 0 <= i < |SplitItems(value, sep)| ==> NoNewline(SplitItems(value, sep)[i])
  {
    SplitKeepsOut(value, sep, '\n');
    StripNonEmptyKeepsOut(Split(value, sep), '\n');
  }

  /** No metadata value of a parsed file holds a newline. */
  lemma {:induction false} ParseSingleLine(path: string, content: string)
    requires Parse(path, content).Success?
    ensures forall k :: k in Parse(path, content).value.metadata ==> NoNewline(Parse(path, content).value.metadata[k])
  {
    var lines := SplitLines(content);
    var t :| ClosesAt(lines, t) && Parse(path, content).value.metadata == HeaderMap(lines[1..t]);
    assert forall i :: 0 <= i < |lines[1..t]| ==> lines[1..t][i] == lines[i + 1];
    HeaderMapSingleLine(lines[1..t]);
  }

  /** A skill built from newline-free metadata is single-line. */
  lemma {:induction false} FromHeaderSingleLine(path: string, metadata: map<string, string>, guidance: string)
    requires forall k :: k in metadata ==> NoNewline(metadata[k])
    requires FromHeader(path, metadata, guidance).Success?
    ensures SingleLine(FromHeader(path, metadata, guidance).value)
  {
    assert RequiredKeys[1] == "name" && RequiredKeys[2] == "description" && RequiredKeys[3] == "tags";
    assert "name" in metadata && "description" in metadata && "tags" in metadata;
    SplitItemsSingleLine(metadata["tags"], ',');
  }

  lemma {:induction false} LoadSingleLine(path: string, content: string)
    requires Load(path, content).Success?
    ensures SingleLine(Load(path, content).value)
  {
    var p := Parse(path, content).value;
    ParseSingleLine(path, content);
    FromHeaderSingleLine(path, p.metadata, p.guidance);
  }

  lemma {:induction false} LoadedSkillsAreSingleLine(role: string, files: map<string, string>)
    requires GetSkills(role, files).Success?
    ensures forall i :: 0 <= i < |GetSkills(role, files).value| ==> SingleLine(GetSkills(role, files).value[i])
  {
    var skills := GetSkills(role, files).value;
    forall i | 0 <= i < |skills| ensures SingleLine(skills[i]) {
      var path := RoleSkillPaths[role][i];
      assert ReadSkill(path, files) == Success(skills[i]);
      LoadSingleLine(path, files[path]);
    }
  }

  lemma {:induction false} SkillBulletSingleLine(skill: SkillDefinition)
    requires SingleLine(skill)
    ensures NoNewline(SkillBullet(skill))
  {
    JoinKeepsOut(", ", skill.tags, '\n');
  }

  lemma {:induction false} GuidanceBulletsSingleLine(lines: seq<string>)
    requires forall i :: 0 <= i < |lines| ==> '\n' !in lines[i]
    ensures forall i :: 0 <= i < |GuidanceBullets(lines)| ==> NoNewline(GuidanceBullets(lines)[i])
  {
    StripNonEmptyKeepsOut(lines, '\n');
  }

  lemma {:induction false} SkillLinesSingleLine(skill: SkillDefinition)
    requires SingleLine(skill)
    ensures forall i :: 0 <= i < |SkillLines(skill)| ==> NoNewline(SkillLines(skill)[i])
  {
    SkillBulletSingleLine(skill);
    if skill.guidance != "" {
      var bullets := GuidanceBullets(SplitLines(skill.guidance));
      GuidanceBulletsSingleLine(SplitLines(skill.guidance));
      KeepsOutConcat([GuidanceHeading], bullets, '\n');
      KeepsOutConcat([SkillBullet(skill)], [GuidanceHeading] + bullets, '\n');
    }
  }

  lemma {:induction false} SkillsLinesSingleLine(skills: seq<SkillDefinition>)
    requires forall i :: 0 <= i < |skills| ==> SingleLine(skills[i])
    ensures forall i :: 0 <= i < |SkillsLines(skills)| ==> NoNewline(SkillsLines(skills)[i])
  {
    if skills != [] {
      var init := skills[..|skills| - 1];
      assert forall i :: 0 <= i < |init| ==> init[i] == skills[i];
      SkillsLinesSingleLine(init);
      SkillLinesSingleLine(skills[|skills| - 1]);
    }
  }

  /** The fixed header and footer lines hold no newline and are not summary
      lines. */
  lemma {:induction false} BlockTextsShape()
    ensures BlockFooter != [] && NoNewline(BlockHeader) && NoNewline(BlockFooter)
    ensures !IsSummary(BlockHeader) && !IsSummary(BlockFooter)
  {
  }

  /** The rendered block splits back into exactly its lines. */
  lemma {:induction false} InstructionLinesSplit(skills: seq<SkillDefinition>)
    requires forall i :: 0 <= i < |skills| ==> SingleLine(skills[i])
    ensures SplitLines(Join("\n", InstructionLines(skills))) == InstructionLines(skills)
  {
    SkillsLinesSingleLine(skills);
    if skills != [] {
      BlockTextsShape();
      KeepsOutConcat([BlockHeader], SkillsLines(skills), '\n');
      KeepsOutConcat([BlockHeader] + SkillsLines(skills), [BlockFooter], '\n');
    }
    SplitLinesJoin(InstructionLines(skills));
  }
}
