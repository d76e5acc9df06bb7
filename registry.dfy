/**
 * The registry of custom parsers: the `key:value;;\n` config block format,
 * adding or updating a parser from such a block, removing one, replacing
 * them all from the templates text, the combined parser list, and the
 * reducer over the parser-related UI state.
 */
module Registry {
  import opened Common
  import opened Text
  import opened Patterns
  import opened DataExtractor

  // ---------------------------------------------------------------------
  // parseConfigBlock

  /** The result of `parseConfigBlock`; an absent `metadata`/`table` is `None` (`undefined`). */
  datatype ConfigBlock = ConfigBlock(name: string, matches: string, metadata: Option<string>, table: Option<string>)

  /** `{ name: "", matches: "", metadata: undefined, table: undefined }`. */
  const BaseBlock := ConfigBlock("", "", None, None)

  /** The separator between the pieces of a block. */
  const PieceSeparator := ";;\n"

  /**
   * One piece `str` as `[str.slice(0, i), str.slice(i + 1)]` with `i =
   * str.search(":")`; without a colon `i` is -1, so the key is all but the
   * last character and the value is the whole piece.
   */
  function Piece(str: string): (string, string) {
    match IndexOf(str, ":")
    case Some(i) => (str[..i], str[i + 1..])
    case None => (if str == [] then [] else str[..|str| - 1], str)
  }

  function Pieces(text: string): seq<(string, string)> {
    var parts := Split(text, PieceSeparator);
    seq(|parts|, i requires 0 <= i < |parts| => Piece(parts[i]))
  }

  /** One property assignment of `Object.assign`; keys other than the four are ignored. */
  function Assign(b: ConfigBlock, kv: (string, string)): ConfigBlock {
    if kv.0 == "name" then b.(name := kv.1)
    else if kv.0 == "matches" then b.(matches := kv.1)
    else if kv.0 == "metadata" then b.(metadata := Some(kv.1))
    else if kv.0 == "table" then b.(table := Some(kv.1))
    else b
  }

  /** `Object.assign(b, Object.fromEntries(pieces))`: the pieces applied in order. */
  function AssignAll(b: ConfigBlock, pieces: seq<(string, string)>): ConfigBlock {
    if pieces == [] then b else Assign(AssignAll(b, pieces[..|pieces| - 1]), pieces[|pieces| - 1])
  }

  /** `parseConfigBlock(text)`. */
  function ParseConfigBlock(text: string): ConfigBlock {
    AssignAll(BaseBlock, Pieces(text))
  }

  /** The value of the last piece with key `k`, scanning from the end. */
  function LastValue(pieces: seq<(string, string)>, k: string): (r: Option<string>)
    ensures r.Some? ==> exists i :: 0 <= i < |pieces| && pieces[i] == (k, r.value)
    ensures r.None? ==> forall i :: 0 <= i < |pieces| ==> pieces[i].0 != k
  {
    if pieces == [] then None
    else if pieces[|pieces| - 1].0 == k then Some(pieces[|pieces| - 1].1)
    else
      var r := LastValue(pieces[..|pieces| - 1], k);
      assert r.Some? ==> exists i :: 0 <= i < |pieces| && pieces[i] == (k, r.value) by {
        if r.Some? {
          var i :| 0 <= i < |pieces| - 1 && pieces[..|pieces| - 1][i] == (k, r.value);
          assert pieces[i] == (k, r.value);
        }
      }
      r
  }

  function OrElse(v: Option<string>, d: string): string {
    if v.Some? then v.value else d
  }

  /** Each field is the value of the last piece with its key, or the default when there is none. */
  lemma {:induction false} AssignAllLastWins(b: ConfigBlock, pieces: seq<(string, string)>)
    ensures var r := AssignAll(b, pieces);
      r.name == OrElse(LastValue(pieces, "name"), b.name) &&
      r.matches == OrElse(LastValue(pieces, "matches"), b.matches) &&
      r.metadata == (if LastValue(pieces, "metadata").Some? then LastValue(pieces, "metadata") else b.metadata) &&
      r.table == (if LastValue(pieces, "table").Some? then LastValue(pieces, "table") else b.table)
  {
    if pieces != [] {
      AssignAllLastWins(b, pieces[..|pieces| - 1]);
    }
  }

  /**
   * `parseConfigBlock`: the later of two pieces with the same key wins, and
   * a key without a piece keeps its default (`""` for name and matches,
   * `undefined` for metadata and table).
   */
  lemma ParseConfigBlockFields(text: string)
    ensures var r := ParseConfigBlock(text);
      var ps := Pieces(text);
      r.name == OrElse(LastValue(ps, "name"), "") &&
      r.matches == OrElse(LastValue(ps, "matches"), "") &&
      r.metadata == LastValue(ps, "metadata") &&
      r.table == LastValue(ps, "table")
  {
    AssignAllLastWins(BaseBlock, Pieces(text));
  }

  /**
   * A piece with a colon splits at its first colon: the key has no colon,
   * and key, colon and value, untrimmed, give back the piece.
   */
  lemma PieceSplitsAtFirstColon(str: string)
    requires ':' in str
    ensures var (k, v) := Piece(str);
      ':' !in k && k + ":" + v == str
  {
    var i :| 0 <= i < |str| && str[i] == ':';
    assert OccursAt(str, ":", i);
    var j := IndexOf(str, ":").value;
    NoEarlierOccurrence(str, ":", j);
    NotContainsChar(str[..j], ':');
    assert str == str[..j] + ":" + str[j + 1..];
  }

  /** The text a block with these four values is written as, one `key:value` per piece. */
  function FormText(name: string, matches: string, metadata: string, table: string): string {
    Entry("name", name) + PieceSeparator + Entry("matches", matches) + PieceSeparator +
    Entry("metadata", metadata) + PieceSeparator + Entry("table", table)
  }

  /** One `key:value` piece. */
  function Entry(key: string, value: string): string {
    key + ":" + value
  }

  /** Prefixing characters that cannot start the needle does not create an occurrence. */
  lemma ContainsAfterPrefix(a: string, b: string, sep: string)
    requires sep != [] && sep[0] !in a && !Contains(b, sep)
    ensures !Contains(a + b, sep)
  {
    if Contains(a + b, sep) {
      var i: nat :| i <= |a + b| && OccursAt(a + b, sep, i);
      if i >= |a| {
        assert (a + b)[i..i + |sep|] == b[i - |a|..i - |a| + |sep|];
        assert OccursAt(b, sep, i - |a|);
      }
    }
  }

  /** The piece `key:value` for a key without a colon. */
  lemma PieceOfKeyValue(key: string, value: string)
    requires ':' !in key
    ensures Piece(Entry(key, value)) == (key, value)
  {
    var s := key + ":" + value;
    assert s[|key|..|key| + 1] == [s[|key|]] == ":";
    assert OccursAt(s, ":", |key|);
    var r := IndexOf(s, ":");
    var j := r.value;
    forall m: nat | m < |key| ensures !OccursAt(s, ":", m) {
      assert s[m] == key[m];
      assert s[m..m + 1] == [s[m]];
    }
    assert j == |key|;
    assert s[..|key|] == key;
    assert s[|key| + 1..] == value;
  }

  function FormParts(name: string, matches: string, metadata: string, table: string): seq<string> {
    [Entry("name", name), Entry("matches", matches), Entry("metadata", metadata), Entry("table", table)]
  }

  lemma FormPartsJoin(name: string, matches: string, metadata: string, table: string)
    ensures Join(FormParts(name, matches, metadata, table), PieceSeparator) == FormText(name, matches, metadata, table)
  {
    var parts := FormParts(name, matches, metadata, table);
    JoinCons(parts[2], parts[3..], PieceSeparator);
    assert parts[2..] == [parts[2]] + parts[3..];
    JoinCons(parts[1], parts[2..], PieceSeparator);
    assert parts[1..] == [parts[1]] + parts[2..];
    JoinCons(parts[0], parts[1..], PieceSeparator);
    assert parts == [parts[0]] + parts[1..];
  }

  lemma FormPartsSplit(name: string, matches: string, metadata: string, table: string)
    requires !Contains(name, PieceSeparator) && !Contains(matches, PieceSeparator)
    requires !Contains(metadata, PieceSeparator) && !Contains(table, PieceSeparator)
    ensures Split(FormText(name, matches, metadata, table), PieceSeparator) == FormParts(name, matches, metadata, table)
  {
    var parts := FormParts(name, matches, metadata, table);
    ContainsAfterPrefix("name" + ":", name, PieceSeparator);
    ContainsAfterPrefix("matches" + ":", matches, PieceSeparator);
    ContainsAfterPrefix("metadata" + ":", metadata, PieceSeparator);
    ContainsAfterPrefix("table" + ":", table, PieceSeparator);
    FormPartsJoin(name, matches, metadata, table);
    assert Borderless(PieceSeparator);
    SplitJoin(parts, PieceSeparator);
  }

  /**
   * A block written with `FormText` reads back as those four values, as long
   * as no value contains the piece separator.
   */
  lemma ParseFormText(name: string, matches: string, metadata: string, table: string)
    requires !Contains(name, PieceSeparator) && !Contains(matches, PieceSeparator)
    requires !Contains(metadata, PieceSeparator) && !Contains(table, PieceSeparator)
    ensures ParseConfigBlock(FormText(name, matches, metadata, table)) ==
      ConfigBlock(name, matches, Some(metadata), Some(table))
  {
    FormPieces(name, matches, metadata, table);
    AssignFour(name, matches, metadata, table);
  }

  lemma FormPieces(name: string, matches: string, metadata: string, table: string)
    requires !Contains(name, PieceSeparator) && !Contains(matches, PieceSeparator)
    requires !Contains(metadata, PieceSeparator) && !Contains(table, PieceSeparator)
    ensures Pieces(FormText(name, matches, metadata, table)) ==
      [("name", name), ("matches", matches), ("metadata", metadata), ("table", table)]
  {
    var kvs := [("name", name), ("matches", matches), ("metadata", metadata), ("table", table)];
    FormPartsSplit(name, matches, metadata, table);
    assert FormParts(name, matches, metadata, table) == EntriesOf(kvs);
    PiecesOfEntries(FormText(name, matches, metadata, table), kvs);
  }

  function EntriesOf(kvs: seq<(string, string)>): seq<string> {
    seq(|kvs|, i requires 0 <= i < |kvs| => Entry(kvs[i].0, kvs[i].1))
  }

  /** A text that splits into `key:value` entries with colon-free keys reads back as those pairs. */
  lemma PiecesOfEntries(text: string, kvs: seq<(string, string)>)
    requires forall i :: 0 <= i < |kvs| ==> ':' !in kvs[i].0
    requires Split(text, PieceSeparator) == EntriesOf(kvs)
    ensures Pieces(text) == kvs
  {
    forall i | 0 <= i < |kvs| ensures Pieces(text)[i] == kvs[i] {
      PieceOfKeyValue(kvs[i].0, kvs[i].1);
    }
  }

  lemma AssignFour(name: string, matches: string, metadata: string, table: string)
    ensures AssignAll(BaseBlock, [("name", name), ("matches", matches), ("metadata", metadata), ("table", table)]) ==
      ConfigBlock(name, matches, Some(metadata), Some(table))
  {
    var ps := [("name", name), ("matches", matches), ("metadata", metadata), ("table", table)];
    assert ps[..3][..2][..1][..0] == [];
    assert AssignAll(BaseBlock, ps[..3][..2][..1]) == BaseBlock.(name := name);
    assert AssignAll(BaseBlock, ps[..3][..2]) == BaseBlock.(name := name, matches := matches);
  }

  /** The text the parser form starts with. */
  const FormDefault := "name:;;\nmatches:;;\nmetadata:;;\ntable:"

  /** The untouched form parses to an empty name and empty patterns. */
  lemma FormDefaultParses()
    ensures ParseConfigBlock(FormDefault) == ConfigBlock("", "", Some(""), Some(""))
  {
    assert FormDefault == FormText("", "", "", "");
    ParseFormText("", "", "", "");
  }

  // ---------------------------------------------------------------------
  // Custom parsers

  /** A stored custom parser `{ name, matches, metadata, table }`. */
  datatype CustomParser = CustomParser(name: string, keywords: seq<string>, metadata: Option<string>, table: Option<string>)

  /** `matches.split(",").map((s) => s.trim()).filter((s) => s.length > 0)`. */
  function Keywords(matches: string): seq<string> {
    NonEmpty(TrimEach(Split(matches, ",")))
  }

  /** Keywords are non-empty, trimmed, free of commas and taken from the matches text. */
  lemma KeywordsShape(matches: string)
    ensures forall k :: k in Keywords(matches) ==>
      k != "" && Trim(k) == k && ',' !in k && Contains(matches, k)
  {
    forall k | k in Keywords(matches)
      ensures k != "" && Trim(k) == k && ',' !in k && Contains(matches, k)
    {
      KeywordShape(matches, k);
    }
  }

  lemma KeywordShape(matches: string, k: string)
    requires k in Keywords(matches)
    ensures k != "" && Trim(k) == k && ',' !in k && Contains(matches, k)
  {
    var parts := Split(matches, ",");
    var trimmed := TrimEach(parts);
    assert k in trimmed && k != "";
    var j :| 0 <= j < |trimmed| && trimmed[j] == k;
    assert k == Trim(parts[j]);
    TrimOfTrimmed(k);
    KeywordPartShape(matches, j);
  }

  /** The trimmed `j`-th comma-separated part has no comma and occurs in the text. */
  lemma KeywordPartShape(matches: string, j: nat)
    requires j < |Split(matches, ",")|
    ensures var p := Trim(Split(matches, ",")[j]);
      ',' !in p && Contains(matches, p)
  {
    var part := Split(matches, ",")[j];
    NotContainsChar(part, ',');
    PartOccurs(matches, ",", j);
    TrimOccurs(part);
    ContainsTrans(matches, part, Trim(part));
    AbsentInPart(part, Trim(part), ',');
  }


  /** JavaScript truthiness of an optional string. */
  predicate Truthy(v: Option<string>) {
    v.Some? && v.value != ""
  }

  /**
   * The message of the first pattern that does not compile: `metadata` with
   * flag `s`, then `table` with flag `g`, each only when truthy.
   */
  function CompileProblem(engine: Engine, metadata: Option<string>, table: Option<string>): Option<string> {
    if Truthy(metadata) && !Compiles(engine, Pattern(metadata.value, "s")) then
      engine.compileError(Pattern(metadata.value, "s"))
    else if Truthy(table) && !Compiles(engine, Pattern(table.value, "g")) then
      engine.compileError(Pattern(table.value, "g"))
    else None
  }

  /** `currentParsers.findIndex((p) => p.name === name)`. */
  function FindByName(custom: seq<CustomParser>, name: string): (r: Option<nat>)
    ensures r.Some? ==> r.value < |custom| && custom[r.value].name == name
    ensures r.Some? ==> forall j :: 0 <= j < r.value ==> custom[j].name != name
    ensures r.None? ==> forall j :: 0 <= j < |custom| ==> custom[j].name != name
  {
    if custom == [] then None
    else if custom[0].name == name then Some(0)
    else
      match FindByName(custom[1..], name)
      case Some(i) => Some(i + 1)
      case None => None
  }

  /** What `addCustomParser` stores (nothing on an error) and the status it reports. */
  datatype AddOutcome = AddOutcome(stored: Option<seq<CustomParser>>, status: Status)

  const MissingFieldsMessage := "Parser Name (name:) and Match Strings (matches:) are required."
  const EmptyMatchesMessage := "The matches: value cannot be empty."

  function Quoted(name: string): string {
    "Custom parser \"" + name + "\""
  }

  /** `addCustomParser(configText)`. */
  function AddCustomParser(engine: Engine, custom: seq<CustomParser>, configText: string): AddOutcome {
    var data := ParseConfigBlock(configText);
    if data.name == "" || data.matches == "" then
      AddOutcome(None, Status(MissingFieldsMessage, "error"))
    else if CompileProblem(engine, data.metadata, data.table).Some? then
      AddOutcome(None, Status("Invalid Regex: " + CompileProblem(engine, data.metadata, data.table).value, "error"))
    else
      var keywords := Keywords(data.matches);
      if keywords == [] then AddOutcome(None, Status(EmptyMatchesMessage, "error"))
      else
        var p := CustomParser(data.name, keywords, data.metadata, data.table);
        match FindByName(custom, data.name)
        case Some(i) => AddOutcome(Some(custom[i := p]), Status(Quoted(data.name) + " successfully updated!", "success"))
        case None => AddOutcome(Some(custom + [p]), Status(Quoted(data.name) + " successfully added!", "success"))
  }

  /** The block of `configText` is acceptable to `addCustomParser`. */
  predicate Acceptable(engine: Engine, configText: string) {
    var data := ParseConfigBlock(configText);
    data.name != "" && data.matches != "" && CompileProblem(engine, data.metadata, data.table).None? &&
    Keywords(data.matches) != []
  }

  /** The parser a block describes. */
  function BlockParser(configText: string): CustomParser {
    var data := ParseConfigBlock(configText);
    CustomParser(data.name, Keywords(data.matches), data.metadata, data.table)
  }

  /**
   * `addCustomParser` stores exactly when the block has a name and matches,
   * its truthy patterns compile and some keyword survives; in every other
   * case the list is untouched and the status is an error naming the
   * first failed check.
   */
  lemma AddRejects(engine: Engine, custom: seq<CustomParser>, configText: string)
    ensures var r := AddCustomParser(engine, custom, configText);
      var data := ParseConfigBlock(configText);
      (r.stored.Some? <==> Acceptable(engine, configText)) &&
      (r.stored.None? <==> r.status.kind == "error") &&
      ((data.name == "" || data.matches == "") ==> r.status.message == MissingFieldsMessage) &&
      (data.name != "" && data.matches != "" && CompileProblem(engine, data.metadata, data.table).Some? ==>
        r.status.message == "Invalid Regex: " + CompileProblem(engine, data.metadata, data.table).value)
  {
  }

  /**
   * An accepted block whose name is already taken replaces the first entry
   * of that name in place and reports "updated"; any other accepted block is
   * appended and reports "added". No other entry changes.
   */
  lemma AddUpserts(engine: Engine, custom: seq<CustomParser>, configText: string)
    requires Acceptable(engine, configText)
    ensures var r := AddCustomParser(engine, custom, configText);
      var p := BlockParser(configText);
      var found := FindByName(custom, p.name);
      r.stored.Some? &&
      (found.Some? ==>
        |r.stored.value| == |custom| && r.stored.value[found.value] == p &&
        (forall j :: 0 <= j < |custom| && j != found.value ==> r.stored.value[j] == custom[j]) &&
        r.status == Status(Quoted(p.name) + " successfully updated!", "success")) &&
      (found.None? ==>
        r.stored.value == custom + [p] &&
        r.status == Status(Quoted(p.name) + " successfully added!", "success"))
  {
  }

  predicate DistinctNames(custom: seq<CustomParser>) {
    forall i, j :: 0 <= i < j < |custom| ==> custom[i].name != custom[j].name
  }

  /** Adding keeps custom parser names pairwise different, and the added parser is found by its name. */
  lemma AddKeepsNamesDistinct(engine: Engine, custom: seq<CustomParser>, configText: string)
    requires DistinctNames(custom) && Acceptable(engine, configText)
    ensures var stored := AddCustomParser(engine, custom, configText).stored.value;
      var p := BlockParser(configText);
      DistinctNames(stored) &&
      FindByName(stored, p.name).Some? && stored[FindByName(stored, p.name).value] == p
  {
    var p := BlockParser(configText);
    AddUpserts(engine, custom, configText);
    match FindByName(custom, p.name)
    case Some(i) => ReplaceKeepsNames(custom, i, p);
    case None => AppendKeepsNames(custom, p);
  }

  lemma ReplaceKeepsNames(custom: seq<CustomParser>, i: nat, p: CustomParser)
    requires DistinctNames(custom) && i < |custom| && custom[i].name == p.name
    ensures DistinctNames(custom[i := p])
    ensures FindByName(custom[i := p], p.name) == Some(i)
  {
    var t := custom[i := p];
    assert forall j :: 0 <= j < |t| ==> t[j].name == custom[j].name;
    var f := FindByName(t, p.name);
    assert f.Some? by { assert t[i].name == p.name; }
  }

  lemma AppendKeepsNames(custom: seq<CustomParser>, p: CustomParser)
    requires DistinctNames(custom) && forall j :: 0 <= j < |custom| ==> custom[j].name != p.name
    ensures DistinctNames(custom + [p])
    ensures FindByName(custom + [p], p.name) == Some(|custom|)
  {
    var t := custom + [p];
    var f := FindByName(t, p.name);
    assert f.Some? by { assert t[|custom|].name == p.name; }
  }

  /** What `removeCustomParser(index)` stores and reports. */
  function RemoveCustomParser(custom: seq<CustomParser>, index: nat): (seq<CustomParser>, Status)
    requires index < |custom|
  {
    (custom[..index] + custom[index + 1..], Status(Quoted(custom[index].name) + " removed.", "info"))
  }

  /** Removing deletes exactly entry `index` and keeps the rest in order. */
  lemma RemoveDeletesIndex(custom: seq<CustomParser>, index: nat)
    requires index < |custom|
    ensures var r := RemoveCustomParser(custom, index).0;
      |r| == |custom| - 1 &&
      (forall j :: 0 <= j < index ==> r[j] == custom[j]) &&
      (forall j :: index <= j < |r| ==> r[j] == custom[j + 1]) &&
      multiset(r) + multiset{custom[index]} == multiset(custom)
  {
    assert custom == custom[..index] + [custom[index]] + custom[index + 1..];
  }

  /** Removing a parser that was just added gives back the list from before. */
  lemma RemoveUndoesAdd(engine: Engine, custom: seq<CustomParser>, configText: string)
    requires Acceptable(engine, configText) && FindByName(custom, BlockParser(configText).name).None?
    ensures var stored := AddCustomParser(engine, custom, configText).stored.value;
      |stored| == |custom| + 1 && RemoveCustomParser(stored, |custom|).0 == custom
  {
    var stored := AddCustomParser(engine, custom, configText).stored.value;
    assert stored[..|custom|] == custom;
  }

  // ---------------------------------------------------------------------
  // saveTemplates

  /** Length of the longest white-space prefix. */
  function SpaceRun(s: string): (n: nat)
    ensures n <= |s| && forall i :: 0 <= i < n ==> IsSpace(s[i])
    ensures n < |s| ==> !IsSpace(s[n])
  {
    var t := TrimStart(s);
    assert t == s[|s| - |t|..];
    |s| - |t|
  }

  /** The position just after the last `\n` of `s`; 0 when there is none. */
  function AfterLastNewline(s: string): (k: nat)
    ensures k <= |s| && (k > 0 ==> s[k - 1] == '\n')
    ensures forall i :: k <= i < |s| ==> s[i] != '\n'
  {
    if s == [] then 0
    else if s[|s| - 1] == '\n' then |s|
    else AfterLastNewline(s[..|s| - 1])
  }

  /**
   * The length of a match of `\n\s*\n` at the start of `s`: a newline, the
   * white space after it, given back up to its last newline.
   */
  function BlankLineAt(s: string): (r: Option<nat>)
    ensures r.Some? ==> 2 <= r.value <= |s| && s[0] == '\n' && s[r.value - 1] == '\n'
  {
    if s != [] && s[0] == '\n' then
      var run := s[1..1 + SpaceRun(s[1..])];
      var k := AfterLastNewline(run);
      if k > 0 then Some(1 + k) else None
    else None
  }

  /** The first match of `\n\s*\n` in `s`, as start and length. */
  function FirstBlankLine(s: string): (r: Option<(nat, nat)>)
    ensures r.Some? ==> r.value.1 >= 2 && r.value.0 + r.value.1 <= |s|
  {
    if BlankLineAt(s).Some? then Some((0, BlankLineAt(s).value))
    else if s == [] then None
    else
      match FirstBlankLine(s[1..])
      case Some((i, n)) => Some((i + 1, n))
      case None => None
  }

  /** `s.split(/\n\s*\n/)`. */
  function SplitBlankLines(s: string): (parts: seq<string>)
    ensures |parts| >= 1
    decreases |s|
  {
    match FirstBlankLine(s)
    case None => [s]
    case Some((i, n)) => [s[..i]] + SplitBlankLines(s[i + n..])
  }

  /** The blocks of the templates text: split on `---` if it occurs, else on blank lines. */
  function TemplateBlocks(raw: string): seq<string> {
    if Contains(raw, "---") then Split(raw, "---") else SplitBlankLines(raw)
  }

  /** The parser one block contributes: none for a blank block or one missing a name or matches. */
  function TemplateParser(block: string): Option<CustomParser> {
    var clean := Trim(block);
    if clean == "" then None
    else
      var data := ParseConfigBlock(clean);
      if data.name != "" && data.matches != "" then
        Some(CustomParser(data.name, Keywords(data.matches), Some(OrElse(data.metadata, "")), Some(OrElse(data.table, ""))))
      else None
  }

  function TemplateParsers(blocks: seq<string>): seq<CustomParser> {
    if blocks == [] then []
    else
      var rest := TemplateParsers(blocks[..|blocks| - 1]);
      match TemplateParser(blocks[|blocks| - 1])
      case Some(p) => rest + [p]
      case None => rest
  }

  /** Importing two runs of blocks gives the parsers of the first run, then those of the second. */
  lemma {:induction false} TemplateParsersAppend(a: seq<string>, b: seq<string>)
    ensures TemplateParsers(a + b) == TemplateParsers(a) + TemplateParsers(b)
    decreases |b|
  {
    if b == [] {
      assert a + b == a;
    } else {
      var init := b[..|b| - 1];
      assert (a + b)[..|a + b| - 1] == a + init;
      assert (a + b)[|a + b| - 1] == b[|b| - 1];
      TemplateParsersAppend(a, init);
    }
  }

  /** One block contributes its own parser, or nothing. */
  lemma TemplateParsersOne(b: string)
    ensures TemplateParsers([b]) == if TemplateParser(b).Some? then [TemplateParser(b).value] else []
  {
    assert [b][..0] == [];
  }

  /** `saveTemplates`: the new custom parser list and the status it reports. */
  method SaveTemplates(raw: string) returns (parsers: seq<CustomParser>, status: Status)
    ensures parsers == TemplateParsers(TemplateBlocks(raw))
    ensures status == Status("Updated " + NatToString(|parsers|) + " custom parsers.", "success")
  {
    var blocks := TemplateBlocks(raw);
    parsers := [];
    for i := 0 to |blocks|
      invariant parsers == TemplateParsers(blocks[..i])
    {
      assert blocks[..i + 1][..i] == blocks[..i];
      var cleanBlock := Trim(blocks[i]);
      if cleanBlock != "" {
        var data := ParseConfigBlock(cleanBlock);
        if data.name != "" && data.matches != "" {
          var p := CustomParser(data.name, Keywords(data.matches), Some(OrElse(data.metadata, "")), Some(OrElse(data.table, "")));
          parsers := parsers + [p];
        }
      }
    }
    assert blocks[..|blocks|] == blocks;
    status := Status("Updated " + NatToString(|parsers|) + " custom parsers.", "success");
  }

  /**
   * The saved list has one parser per block with a name and matches, in
   * block order; every one of them has a name, both patterns present (`""`
   * when left out), and its pieces read from the trimmed block.
   */
  lemma {:induction false} TemplateParsersShape(blocks: seq<string>)
    ensures var ps := TemplateParsers(blocks);
      |ps| <= |blocks| &&
      forall p :: p in ps ==>
        p.name != "" && p.metadata.Some? && p.table.Some? &&
        exists b :: b in blocks && TemplateParser(b) == Some(p)
  {
    if blocks != [] {
      var init := blocks[..|blocks| - 1];
      TemplateParsersShape(init);
      forall p | p in TemplateParsers(blocks)
        ensures exists b :: b in blocks && TemplateParser(b) == Some(p)
      {
        if p in TemplateParsers(init) {
          var b :| b in init && TemplateParser(b) == Some(p);
          assert b in blocks;
        } else {
          assert TemplateParser(blocks[|blocks| - 1]) == Some(p);
        }
      }
    }
  }

  /** Saving replaces the whole list: the previous custom parsers play no part. */
  lemma TemplatesReplaceAll(raw: string, b: string)
    requires b in TemplateBlocks(raw) && TemplateParser(b).Some?
    ensures TemplateParser(b).value in TemplateParsers(TemplateBlocks(raw))
  {
    TemplateParsersComplete(TemplateBlocks(raw), b);
  }

  lemma {:induction false} TemplateParsersComplete(blocks: seq<string>, b: string)
    requires b in blocks && TemplateParser(b).Some?
    ensures TemplateParser(b).value in TemplateParsers(blocks)
  {
    var last := blocks[|blocks| - 1];
    if b != last {
      var init := blocks[..|blocks| - 1];
      assert b in init by {
        var i :| 0 <= i < |blocks| && blocks[i] == b;
        assert i < |blocks| - 1;
        assert init[i] == b;
      }
      TemplateParsersComplete(init, b);
    }
  }

  // ---------------------------------------------------------------------
  // The combined parser list

  function AsSource(v: Option<string>): Option<Rx> {
    if v.Some? then Some(Source(v.value)) else None
  }

  /** A custom parser as the list shows it: its name suffixed with ` (Custom)`. */
  function AsListed(c: CustomParser): Parser {
    Parser(c.name + " (Custom)", c.keywords, AsSource(c.metadata), AsSource(c.table), General)
  }

  /** `allParsers`: the custom parsers, suffixed, then the built-in ones. */
  function AllParsers(custom: seq<CustomParser>): (r: seq<Parser>)
    ensures |r| == |custom| + |BuiltInParsers|
    ensures forall i :: 0 <= i < |custom| ==>
      r[i].name == custom[i].name + " (Custom)" && r[i].keywords == custom[i].keywords &&
      r[i].metadata == AsSource(custom[i].metadata) && r[i].table == AsSource(custom[i].table) && r[i].kind == General
    ensures r[|custom|..] == BuiltInParsers
  {
    ListedBefore(custom, BuiltInParsers)
  }

  /** The custom parsers as listed, followed by `tail`. */
  function ListedBefore(custom: seq<CustomParser>, tail: seq<Parser>): (r: seq<Parser>)
    ensures |r| == |custom| + |tail|
    ensures forall i :: 0 <= i < |custom| ==>
      r[i].name == custom[i].name + " (Custom)" && r[i].keywords == custom[i].keywords &&
      r[i].metadata == AsSource(custom[i].metadata) && r[i].table == AsSource(custom[i].table) && r[i].kind == General
    ensures r[|custom|..] == tail
  {
    seq(|custom|, i requires 0 <= i < |custom| => AsListed(custom[i])) + tail
  }

  // ---------------------------------------------------------------------
  // parserReducer

  /** The parser-related UI state. */
  datatype ParserState = ParserState(
    customParsers: seq<CustomParser>,
    isParserFormVisible: bool,
    isParserListModalVisible: bool,
    expandedParsers: map<string, bool>,
    isTemplatesModalVisible: bool,
    templatesText: string,
    selectedParser: string,
    oneShotRegex: string,
    oneShotGlobal: bool)

  const InitialParserState := ParserState([], false, false, map[], false, "", "auto", "", false)

  /** `TOGGLE_LIST_MODAL` and `TOGGLE_TEMPLATES_MODAL` toggle when their payload is `None` (`null`/`undefined`). */
  datatype ParserAction =
    | UpdateParsers(parsers: seq<CustomParser>)
    | SetSelectedParser(selected: string)
    | ToggleForm
    | CloseForm
    | ToggleListModal(show: Option<bool>)
    | ToggleExpandParser(key: string)
    | ToggleTemplatesModal(show: Option<bool>)
    | SetTemplatesText(text: string)
    | SetOneShotRegex(regex: string)
    | SetOneShotGlobal(global: bool)
    | UnknownParserAction

  /** `expandedParsers[key]` is truthy; a missing key counts as collapsed. */
  predicate Expanded(m: map<string, bool>, key: string) {
    key in m && m[key]
  }

  function OrToggle(v: Option<bool>, current: bool): bool {
    if v.Some? then v.value else !current
  }

  function ParserReducer(s: ParserState, a: ParserAction): ParserState {
    match a
    case UpdateParsers(ps) => s.(customParsers := ps)
    case SetSelectedParser(p) => s.(selectedParser := p)
    case ToggleForm => s.(isParserFormVisible := !s.isParserFormVisible)
    case CloseForm => s.(isParserFormVisible := false)
    case ToggleListModal(v) => s.(isParserListModalVisible := OrToggle(v, s.isParserListModalVisible))
    case ToggleExpandParser(k) => s.(expandedParsers := s.expandedParsers[k := !Expanded(s.expandedParsers, k)])
    case ToggleTemplatesModal(v) => s.(isTemplatesModalVisible := OrToggle(v, s.isTemplatesModalVisible))
    case SetTemplatesText(t) => s.(templatesText := t)
    case SetOneShotRegex(r) => s.(oneShotRegex := r)
    case SetOneShotGlobal(g) => s.(oneShotGlobal := g)
    case UnknownParserAction => s
  }

  /**
   * Toggling a parser's details flips whether that one is expanded and
   * leaves every other parser and every other field alone; toggling twice
   * restores the expanded set.
   */
  lemma ToggleExpandFlipsOne(s: ParserState, key: string)
    ensures var t := ParserReducer(s, ToggleExpandParser(key));
      Expanded(t.expandedParsers, key) == !Expanded(s.expandedParsers, key) &&
      (forall k :: k != key ==> Expanded(t.expandedParsers, k) == Expanded(s.expandedParsers, k)) &&
      t.(expandedParsers := s.expandedParsers) == s
    ensures var u := ParserReducer(ParserReducer(s, ToggleExpandParser(key)), ToggleExpandParser(key));
      forall k :: Expanded(u.expandedParsers, k) == Expanded(s.expandedParsers, k)
  {
  }

  /**
   * The visibility toggles: `None` flips, a given payload sets; the form's
   * toggle twice is the identity, `CLOSE_FORM` always hides it, and an
   * unknown action changes nothing.
   */
  lemma ParserReducerToggles(s: ParserState, v: Option<bool>)
    ensures ParserReducer(ParserReducer(s, ToggleForm), ToggleForm) == s
    ensures !ParserReducer(s, CloseForm).isParserFormVisible
    ensures ParserReducer(s, ToggleListModal(v)).isParserListModalVisible ==
      (if v.Some? then v.value else !s.isParserListModalVisible)
    ensures ParserReducer(s, ToggleTemplatesModal(v)).isTemplatesModalVisible ==
      (if v.Some? then v.value else !s.isTemplatesModalVisible)
    ensures ParserReducer(s, UnknownParserAction) == s
  {
  }

  /**
   * The add handler: on success it stores the list (`UPDATE_PARSERS`) and
   * closes the form (`CLOSE_FORM`); on an error the parser state is
   * untouched. The status goes to the application state.
   */
  function HandleAddCustomParser(engine: Engine, s: ParserState, configText: string): (ParserState, Status) {
    Absorb(s, AddCustomParser(engine, s.customParsers, configText))
  }

  /** The dispatches after `addCustomParser` returns: store and close on success, nothing on an error. */
  function Absorb(s: ParserState, r: AddOutcome): (ParserState, Status) {
    match r.stored
    case Some(ps) => (ParserReducer(ParserReducer(s, UpdateParsers(ps)), CloseForm), r.status)
    case None => (s, r.status)
  }

  /** The add handler changes the state only on success, and then only the list and the form's visibility. */
  lemma HandleAddChanges(engine: Engine, s: ParserState, configText: string)
    ensures var (t, _) := HandleAddCustomParser(engine, s, configText);
      (!Acceptable(engine, configText) ==> t == s) &&
      (Acceptable(engine, configText) ==>
        t == s.(customParsers := AddCustomParser(engine, s.customParsers, configText).stored.value,
                isParserFormVisible := false))
  {
    AddRejects(engine, s.customParsers, configText);
  }

  lemma SaveSteps(s: ParserState, ps: seq<CustomParser>)
    ensures ParserReducer(ParserReducer(ParserReducer(s, UpdateParsers(ps)), ToggleTemplatesModal(Some(false))), SetTemplatesText("")) ==
      s.(customParsers := ps, isTemplatesModalVisible := false, templatesText := "")
  {
    var t1 := ParserReducer(s, UpdateParsers(ps));
    assert t1 == s.(customParsers := ps);
    var t2 := ParserReducer(t1, ToggleTemplatesModal(Some(false)));
    assert t2 == t1.(isTemplatesModalVisible := false);
  }

  /**
   * The save handler: stores the parsed list, hides the templates modal and
   * clears the templates text.
   */
  method HandleSaveTemplates(s: ParserState, raw: string) returns (t: ParserState, status: Status)
    ensures t == s.(customParsers := TemplateParsers(TemplateBlocks(raw)),
                    isTemplatesModalVisible := false, templatesText := "")
    ensures status.kind == "success"
  {
    var parsers;
    parsers, status := SaveTemplates(raw);
    t := ParserReducer(s, UpdateParsers(parsers));
    t := ParserReducer(t, ToggleTemplatesModal(Some(false)));
    t := ParserReducer(t, SetTemplatesText(""));
    SaveSteps(s, parsers);
  }
}
