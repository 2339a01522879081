# Skill registry, modelled in Dafny

This project models the skill-metadata loader of `examples/skill_registry.py`.
The example agents use it to attach SKILL.md guidance to their prompts.

A SKILL.md file has three parts:

- a first line `---`;
- `key: value` header lines up to the next `---` line (the frontmatter);
- free-form guidance after that line.

The loader does four things:

1. It parses the header into a metadata map. Blank lines, `#` comments and lines without a colon are skipped, and a later key overwrites an earlier one.
2. It checks that the five required keys `id`, `name`, `description`, `tags` and `examples` are present.
3. It builds a `SkillDefinition`, splitting `tags` on `,` and `examples` on `|`.
4. It resolves a role through the fixed role table to its skill files, and renders the skills of a role as a prompt instruction block.

The model has three modules:

- `Strings` (`strings.dfy`) holds the Python string operations the loader uses: `strip`, `split`, `split(':', 1)` (via the first index of `:`), `join` and `splitlines`. It proves the facts about them that the loader's proofs need, such as split undoing join and strip being idempotent.
- `SkillRegistry` (`skill_registry.dfy`) follows the source file function by function.
  - The two parts of the source that update state step by step are methods with loops, each proved equal to a specification function:
    - `ParseSkillFile` (the header loop with its `break`) is proved equal to `Parse`.
    - `RenderLines` / `AppendSkillLines` (the nested loops appending to `lines`) are proved equal to `InstructionLines`.
  - The pure parts are functions whose contracts state what the source promises: `SplitCsv`, `SplitExamples`, `FromHeader`, `Load`, `GetSkills`.
  - It adds lemmas for the properties relating them: what a header line contributes, the last definition of a key winning, the terminator being the first `---` line, the body never affecting the metadata, list splitting undoing joining, the missing-key report, whole-role failure, and the shape of the rendered block.
- `SkillFormat` (`skill_format.dfy`) writes a skill out in the SKILL.md layout.
  - The layout is: `---`, one `key: value` line per required key, `---`, then the guidance.
  - It proves the round trip: loading a file written this way gives back the same `SkillDefinition` for every well-formed skill.
  - This writer is not in the source. It is an independent partner for the parser and validator, and the round trip ties the whole loading pipeline to it.

Modelling choices:

- **Files.** Reading a file is replaced by a map `files` from path to content. A path the map lacks gives a `FileNotFound` error, in place of the exception of `read_text`.
- **Errors.** The `ValueError`s become the `Failure` arm of a `Result`, and each error kind carries the path it was given. `Message` gives the source's three `ValueError` texts around that path, and for `FileNotFound` the text CPython's `FileNotFoundError` shows (`[Errno 2] No such file or directory: '…'`), which is not in the source file.
- **Whitespace.** `strip` removes the ASCII characters for which `str.isspace` holds: space, tab, `\n`, vertical tab, form feed, `\r` and the four separators `\x1c` to `\x1f`.
- **Lines.** `splitlines` splits on `\n` only. As in Python, empty text has no lines, and a final `\n` does not open an empty last line.

## Model

| member | source | states |
|---|---|---|
| Strings.Trim | examples/skill_registry.py:37 | the result of `strip` has no leading or trailing whitespace |
| Strings.TrimIdempotent | examples/skill_registry.py:37 | stripping twice is stripping once |
| Strings.TrimEmptyIff | examples/skill_registry.py:41 | a line strips to the empty string exactly when it is all whitespace |
| Strings.IndexOf | examples/skill_registry.py:45 | the index `split(':', 1)` cuts at is a `:` with none before it |
| Strings.Split | examples/skill_registry.py:56 | `split` gives at least one piece, no piece holds the separator, and joining the pieces with the separator gives the text back |
| Strings.SplitJoin | examples/skill_registry.py:56 | splitting undoes joining with a one-character separator |
| Strings.JoinStartsWith | examples/skill_registry.py:109 | `sep.join(parts)` begins with the first part |
| Strings.JoinEndsWith | examples/skill_registry.py:109 | `sep.join(parts)` ends with the last part |
| Strings.SplitLines | examples/skill_registry.py:29 | `splitlines` gives lines without newlines, none exactly for empty text, and joining them restores the text up to a final newline |
| Strings.SplitLinesJoin | examples/skill_registry.py:29 | splitting lines undoes joining them when no line holds a newline and the last is not empty |
| Strings.SplitLinesFirst | examples/skill_registry.py:29-30 | the first line of a text is what precedes its first newline |
| SkillRegistry.HeaderEntry | examples/skill_registry.py:37-46 | a header line contributes nothing exactly when, stripped, it is empty, starts with `#` or has no `:`; otherwise the stripped line is `pre:post` with no `:` in `pre`, and the entry is stripped `pre` as key and stripped `post` as value |
| SkillRegistry.EntryMap | examples/skill_registry.py:33-46 | every binding of the metadata map is the key and value of one of the entries |
| SkillRegistry.EntryMapMember | examples/skill_registry.py:46 | a key is in the metadata exactly when some entry defines it |
| SkillRegistry.EntryMapValue | examples/skill_registry.py:46 | a key's value is the one of the last entry that defines it |
| SkillRegistry.HeaderMapLookup | examples/skill_registry.py:36-46 | a key is in the metadata exactly when some header line defines it; its value is the one of the last such line; the map holds no other keys |
| SkillRegistry.HeaderMap | examples/skill_registry.py:33-46 | every key of the metadata dict is stripped and free of `:`, and every value is stripped (contents: `HeaderMapLookup`) |
| SkillRegistry.HeaderMapMember | examples/skill_registry.py:33-46 | a key is in the metadata exactly when some header line defines it |
| SkillRegistry.HeaderMapSnoc | examples/skill_registry.py:41-46 | one more header line updates the metadata by its own entry only |
| SkillRegistry.IgnoredLineVanishes | examples/skill_registry.py:41-44 | a blank, comment or colon-free line can be removed anywhere without changing the metadata |
| SkillRegistry.FindTerminator | examples/skill_registry.py:36-40 | the terminator found is the first delimiter line from the start position; none is found only when there is no delimiter line |
| SkillRegistry.Parse | examples/skill_registry.py:27-52 | missing frontmatter exactly when there are no lines or the first is not `---`; unterminated exactly when it opens and no later line is `---`; otherwise the metadata of the lines before the first closing `---` and the stripped join of the lines after it |
| SkillRegistry.StoreHeaderLine | examples/skill_registry.py:37-46 | one loop step leaves the metadata alone for a skipped line and sets the line's key to its value otherwise |
| SkillRegistry.ParseSkillFile | examples/skill_registry.py:27-52 | the loop with its `break` computes exactly `Parse` |
| SkillRegistry.FirstLineDecides | examples/skill_registry.py:29-31 | whatever follows, a file fails as missing its frontmatter exactly when its first line is not the delimiter |
| SkillRegistry.LeadingBlankLine | examples/skill_registry.py:29-31 | a file starting with a blank line has no frontmatter |
| SkillRegistry.ParseClosesAt | examples/skill_registry.py:36-52 | a file opening with `---` and first closing at line `t` parses to the metadata of lines 1..t-1 and the stripped rest |
| SkillRegistry.MetadataIgnoresBody | examples/skill_registry.py:36-51 | two files agreeing up to the terminator both parse, to the same metadata, whatever follows it |
| SkillRegistry.SplitItems | examples/skill_registry.py:55-60 | the shared comprehension of both splitters: every item is stripped, non-empty and free of the separator |
| SkillRegistry.StripNonEmpty | examples/skill_registry.py:56 | every kept piece is stripped and non-empty |
| SkillRegistry.SplitCsv | examples/skill_registry.py:55-56 | every tag is stripped, non-empty and free of `,` |
| SkillRegistry.SplitExamples | examples/skill_registry.py:59-60 | every example is stripped, non-empty and free of the pipe character |
| SkillRegistry.SplitItemsBlank | examples/skill_registry.py:55-60 | an empty or all-whitespace value gives no items |
| SkillRegistry.SplitItemsSingle | examples/skill_registry.py:55-60 | a non-blank value without a separator gives one item, the stripped value |
| SkillRegistry.SplitItemsConcat | examples/skill_registry.py:55-60 | items keep source order and duplicates: the items of `a + sep + b` are those of `a` followed by those of `b` |
| SkillRegistry.SplitItemsPadRight | examples/skill_registry.py:55-60 | whitespace before a separator does not change the items |
| SkillRegistry.SplitItemsPadLeft | examples/skill_registry.py:55-60 | whitespace after a separator does not change the items |
| SkillRegistry.SplitItemsJoin | examples/skill_registry.py:55-60 | stripped, non-empty, separator-free items joined with a whitespace-padded separator split back to the same items |
| SkillRegistry.MissingFrom | examples/skill_registry.py:66-67 | a key is reported missing exactly when it is required and absent |
| SkillRegistry.MissingFromConcat | examples/skill_registry.py:67 | missing keys are reported in the order of the required keys |
| SkillRegistry.MissingOnlyDescription | examples/skill_registry.py:66-70 | a header lacking only `description` reports exactly `[description]`, with the source's message text |
| SkillRegistry.FromHeader | examples/skill_registry.py:66-79 | validation fails exactly when a required key is absent, with the ordered list of all absent keys; on success the fields are the metadata values, tags and examples split, and the guidance given |
| SkillRegistry.Load | examples/skill_registry.py:63-79 | a parse failure is passed on unchanged; otherwise the result is the validation of the parsed header |
| SkillRegistry.Message | examples/skill_registry.py:31-70 | the three parser and validator messages (lines 31, 49 and 70) end with ` in ` and the file's path |
| SkillRegistry.MessageTellsKind | examples/skill_registry.py:31-70 | equal messages come from the same kind of failure |
| SkillRegistry.RoleSkillPathsShape | examples/skill_registry.py:19-24 | the table knows the four roles policy, research, provider and healthcare, each with exactly one skill file, no two sharing one |
| SkillRegistry.ReadSkill | examples/skill_registry.py:63-64 | a file present in `files` gives exactly the load of its content (the `read_text` of line 28); an absent one gives `FileNotFound` for its path; every failure names the file |
| SkillRegistry.Reads | examples/skill_registry.py:89 | one load result per path, in order |
| SkillRegistry.Collect | examples/skill_registry.py:89 | succeeds exactly when every load does, with the values in order; otherwise gives the first failure |
| SkillRegistry.LoadAll | examples/skill_registry.py:88-89 | succeeds exactly when every path loads, one skill per path in order; otherwise fails with the first failing path's error and no partial result |
| SkillRegistry.GetSkills | examples/skill_registry.py:82-89 | an unknown role gives no skills and no error; a known role gives one skill per registered path in table order, or the first load failure |
| SkillRegistry.LoadAllLoads | examples/skill_registry.py:89 | when every path loads, loading them all gives exactly their skills in path order |
| SkillRegistry.GetSkillsLoads | examples/skill_registry.py:82-89 | a known role whose registered files all load gets exactly their skills, in table order |
| SkillRegistry.SkillBullet | examples/skill_registry.py:100-101 | the summary line of a skill starts with `-`, so no other line of the block is taken for it |
| SkillRegistry.SkillLines | examples/skill_registry.py:100-106 | a skill's lines start with its summary line, have more lines exactly when its guidance is non-empty, then `  Guidance:`, then only guidance bullets, and hold no other summary line |
| SkillRegistry.GuidanceBullets | examples/skill_registry.py:104-106 | at most one bullet per guidance line, each the `  - ` prefix and a stripped text |
| SkillRegistry.StripNonEmptyClean | examples/skill_registry.py:105-106 | lines that are already stripped and non-empty are kept unchanged |
| SkillRegistry.GuidanceBulletsConcat | examples/skill_registry.py:104-106 | the bullets of two runs of guidance lines are those of each, in order |
| SkillRegistry.GuidanceBulletsBlank | examples/skill_registry.py:105 | a blank guidance line adds no bullet, wherever it stands |
| SkillRegistry.SkillLinesGuidance | examples/skill_registry.py:100-106 | guidance of clean lines renders as the summary, `  Guidance:`, and one bullet per guidance line in their order |
| SkillRegistry.SkillsLines | examples/skill_registry.py:99-106 | the skills' lines number at least one per skill and start with the first skill's summary |
| SkillRegistry.InstructionLines | examples/skill_registry.py:98-108 | the block is empty exactly when there are no skills, and otherwise its second line is the first skill's summary |
| SkillRegistry.Bullets | examples/skill_registry.py:106 | one `  - ` bullet per text, in order |
| SkillRegistry.AppendSkillLines | examples/skill_registry.py:99-106 | appends the skill's summary line and, only for non-empty guidance, the heading and one bullet per non-blank guidance line |
| SkillRegistry.RenderLines | examples/skill_registry.py:98-108 | the loop over the skills builds exactly the block's lines |
| SkillRegistry.SkillLinesSummary | examples/skill_registry.py:100-106 | the lines of one skill hold exactly one summary line, its own |
| SkillRegistry.SkillsLinesSummaries | examples/skill_registry.py:99-106 | the skills' lines hold one summary line per skill, in skill order |
| SkillRegistry.InstructionLinesShape | examples/skill_registry.py:98-108 | a non-empty block starts with the header line, ends with the footer line and holds one summary line per skill in order |
| SkillRegistry.InstructionLinesSplit | examples/skill_registry.py:98-109 | the joined block splits back into exactly its lines |
| SkillRegistry.LoadSingleLine | examples/skill_registry.py:63-79 | no field shown on a loaded skill's summary line holds a newline |
| SkillRegistry.BuildInstructionBlock | examples/skill_registry.py:92-109 | passes on a load failure; returns `""` exactly when the role has no skills; otherwise the `\n`-join of the block lines, whose first line is the header, last the footer, with one summary line per skill |
| SkillFormat.HeaderLineEntry | examples/skill_registry.py:37-46 | a written `key: value` line reads back as exactly that entry and is not a delimiter |
| SkillFormat.HeaderTextMap | examples/skill_registry.py:36-46 | a written header block reads back as the map of its keys to its values |
| SkillFormat.FieldMapLookup | examples/skill_registry.py:46 | a key no later key repeats maps to its own value |
| SkillFormat.TagsRoundTrip | examples/skill_registry.py:55-56 | tags written as `t1, t2` split back into the same tags |
| SkillFormat.ExamplesRoundTrip | examples/skill_registry.py:59-60 | examples written with a padded pipe between each two split back into the same examples |
| SkillFormat.FieldsBuild | examples/skill_registry.py:66-79 | validating the written header of a well-formed skill builds that skill |
| SkillFormat.FileLinesSplit | examples/skill_registry.py:29 | the written file splits into exactly its lines |
| SkillFormat.FileLinesClose | examples/skill_registry.py:30-40 | the written file opens at line 0 and first closes at line 6 |
| SkillFormat.GuidanceLinesJoin | examples/skill_registry.py:51 | written guidance lines, joined and stripped, give the guidance back |
| SkillFormat.ParseFormatted | examples/skill_registry.py:27-52 | the written file parses to the map of the five keys to the skill's values and to its guidance |
| SkillFormat.LoadFormatted | examples/skill_registry.py:27-79 | loading the SKILL.md text of a well-formed skill gives back that skill |
| SkillFormat.ReadFormatted | examples/skill_registry.py:63-64 | reading a file that holds the SKILL.md text of a well-formed skill gives back that skill |
| SkillFormat.GetSkillsFormatted | examples/skill_registry.py:82-89 | a known role whose registered files hold the SKILL.md texts of well-formed skills gets back exactly those skills, in table order |

## Left out

- File reading: `read_text` (line 28) and the directory prefix `Path(__file__).resolve().parent` (line 88) are I/O. They are replaced by the `files` map, keyed by the relative paths of the role table.
- Message: all four messages name the path the error carries, which is the relative path of the role table. In the source, `skill_path` is `base_dir / relative_path` (line 89), so all four texts (lines 31, 49, 70 and the `read_text` error) name the resolved absolute path instead. The other errors `read_text` (line 28) can raise are not modelled: `PermissionError`, `IsADirectoryError` and the other `OSError`s, and `UnicodeDecodeError` (a `ValueError`) for content that is not UTF-8. The `FileNotFound` text always quotes the path with `'`, whereas CPython writes the file name through `repr`, which uses `"` for a path that contains `'`.
- `str.strip` also removes the non-ASCII Unicode whitespace characters (such as `\x85`, `\xa0`, `\u2028` and `\u3000`); the model's `Trim` removes the ten ASCII whitespace characters only.
- `str.splitlines` also breaks at `\r`, `\r\n`, vertical tab, form feed, `\x1c` to `\x1e`, `\x85` and the Unicode line and paragraph separators; the model's `SplitLines` breaks only at `\n`.
- `Path` values are modelled as strings; the role table's paths are the same text.
- The other files of the repository (the agent servers and clients, `helpers.py`, `policy_agent.py`) are HTTP/A2A bootstrapping, model calls and display code over third-party frameworks, not part of this model.
- The two long constant texts of the instruction block are written in Dafny as concatenations of shorter pieces; the resulting strings are the source's.
