/**
 * Choosing the parser for a document: in auto mode the first parser of the
 * combined list whose every keyword occurs, ignoring case, in the text with
 * its white space collapsed; in forced mode the first parser with the
 * chosen name. The chosen parser's string patterns are compiled (`s` for
 * metadata, `g` for the table) and its `func` is run on the text.
 */
module Classifier {
  import opened Common
  import opened Text
  import opened Patterns
  import opened DataExtractor
  import opened Registry

  const AutoMode := "auto"

  /** `matches.every(s => clean.toLowerCase().includes(s.toLowerCase()))`, or name equality in forced mode. */
  predicate Claims(p: Parser, selected: string, clean: string) {
    if selected == AutoMode then forall k :: k in p.keywords ==> Contains(Lower(clean), Lower(k))
    else p.name == selected
  }

  /** The position of the first parser that claims the document. */
  function FirstClaim(parsers: seq<Parser>, selected: string, clean: string): (r: Option<nat>)
    ensures r.Some? ==> r.value < |parsers| && Claims(parsers[r.value], selected, clean)
    ensures r.Some? ==> forall j :: 0 <= j < r.value ==> !Claims(parsers[j], selected, clean)
    ensures r.None? <==> forall j :: 0 <= j < |parsers| ==> !Claims(parsers[j], selected, clean)
  {
    if parsers == [] then None
    else if Claims(parsers[0], selected, clean) then Some(0)
    else
      match FirstClaim(parsers[1..], selected, clean)
      case None => None
      case Some(i) => Some(i + 1)
  }

  /** The `for ... of this.allParsers` loop that stops at the first parser claiming the document. */
  method Classify(parsers: seq<Parser>, selected: string, clean: string) returns (r: Option<nat>)
    ensures r == FirstClaim(parsers, selected, clean)
  {
    r := None;
    var i := 0;
    while i < |parsers|
      invariant i <= |parsers|
      invariant forall j :: 0 <= j < i ==> !Claims(parsers[j], selected, clean)
    {
      if Claims(parsers[i], selected, clean) {
        r := Some(i);
        FirstIsUnique(parsers, selected, clean, i);
        return;
      }
      i := i + 1;
    }
  }

  /** A claiming parser with no claiming parser before it is the first claim. */
  lemma FirstIsUnique(parsers: seq<Parser>, selected: string, clean: string, i: nat)
    requires i < |parsers| && Claims(parsers[i], selected, clean)
    requires forall j :: 0 <= j < i ==> !Claims(parsers[j], selected, clean)
    ensures FirstClaim(parsers, selected, clean) == Some(i)
  {
  }

  /**
   * Custom parsers are tried before the built-in ones: when some custom
   * parser claims the document the chosen parser is a custom one (listed
   * with its ` (Custom)` name), and when none does the choice is a
   * built-in parser or nothing.
   */
  lemma CustomBeforeBuiltIn(custom: seq<CustomParser>, selected: string, clean: string)
    ensures var r := FirstClaim(AllParsers(custom), selected, clean);
      ((exists i :: 0 <= i < |custom| && Claims(AllParsers(custom)[i], selected, clean)) ==>
         r.Some? && r.value < |custom| && AllParsers(custom)[r.value].name == custom[r.value].name + " (Custom)") &&
      ((forall i :: 0 <= i < |custom| ==> !Claims(AllParsers(custom)[i], selected, clean)) ==>
         r.None? || (|custom| <= r.value && AllParsers(custom)[r.value] == BuiltInParsers[r.value - |custom|]))
  {
    var ps := AllParsers(custom);
    var r := FirstClaim(ps, selected, clean);
    if r.Some? && |custom| <= r.value {
      assert ps[r.value] == ps[|custom|..][r.value - |custom|];
    }
  }

  lemma LowerLowerChar(c: char)
    ensures LowerChar(LowerChar(c)) == LowerChar(c)
  {
  }

  /**
   * Auto mode ignores case on both sides: lower-casing the text or a keyword
   * first does not change the choice, and a parser with no keywords claims
   * every document.
   */
  lemma ClaimsIgnoresCase(p: Parser, clean: string)
    ensures Claims(p, AutoMode, Lower(clean)) == Claims(p, AutoMode, clean)
    ensures Claims(p.(keywords := seq(|p.keywords|, i requires 0 <= i < |p.keywords| => Lower(p.keywords[i]))), AutoMode, clean)
            == Claims(p, AutoMode, clean)
    ensures p.keywords == [] ==> Claims(p, AutoMode, clean)
  {
    forall s: string ensures Lower(Lower(s)) == Lower(s) {
      forall i | 0 <= i < |s| ensures Lower(Lower(s))[i] == Lower(s)[i] {
        LowerLowerChar(s[i]);
      }
    }
    var q := p.(keywords := seq(|p.keywords|, i requires 0 <= i < |p.keywords| => Lower(p.keywords[i])));
    if Claims(p, AutoMode, clean) {
      forall k | k in q.keywords ensures Contains(Lower(clean), Lower(k)) {
        var i :| 0 <= i < |q.keywords| && q.keywords[i] == k;
        assert p.keywords[i] in p.keywords;
      }
    }
    if Claims(q, AutoMode, clean) {
      forall k | k in p.keywords ensures Contains(Lower(clean), Lower(k)) {
        var i :| 0 <= i < |p.keywords| && p.keywords[i] == k;
        assert q.keywords[i] in q.keywords;
      }
    }
  }

  // ---------------------------------------------------------------------
  // Running the chosen parser

  /** A pattern as the parser hands it on: a literal as it is, a string compiled with `flags`. */
  function Effective(engine: Engine, rx: Option<Rx>, flags: string): Attempt<Option<Pattern>> {
    match rx
    case None => Done(None)
    case Some(Literal(p)) => Done(Some(p))
    case Some(Source(s)) => if Compiles(engine, Pattern(s, flags)) then Done(Some(Pattern(s, flags))) else Threw
  }

  /**
   * `func(rawText, effectiveMetaRx, effectiveTableRx, name)`: a string pattern
   * that does not compile, or a match that throws, makes it throw. The GST
   * and IDBI functions are always given both of their literal patterns.
   */
  function RunParser(engine: Engine, p: Parser, raw: string): Attempt<ParserResult> {
    match Effective(engine, p.metadata, "s")
    case Threw => Threw
    case Done(meta) =>
      match Effective(engine, p.table, "g")
      case Threw => Threw
      case Done(table) =>
        match p.kind
        case General => Done(GeneralSpec(engine, raw, meta, table))
        case GstChallanKind =>
          if meta.Some? && table.Some? then GstChallan(engine, raw, meta.value, table.value) else Threw
        case IdbiKind =>
          if meta.Some? && table.Some? then Idbi(engine, raw, meta.value, table.value) else Threw
  }

  /**
   * A parser whose string patterns compile and whose `func` is the default
   * one never throws, and its result is the default parser's; a string
   * pattern that does not compile always makes it throw.
   */
  lemma RunParserOutcome(engine: Engine, p: Parser, raw: string)
    ensures p.kind == General && Effective(engine, p.metadata, "s").Done? && Effective(engine, p.table, "g").Done? ==>
      RunParser(engine, p, raw) == Done(GeneralSpec(engine, raw, Effective(engine, p.metadata, "s").value, Effective(engine, p.table, "g").value))
    ensures (p.metadata.Some? && p.metadata.value.Source? && !Compiles(engine, Pattern(p.metadata.value.source, "s"))) ==>
      RunParser(engine, p, raw) == Threw
    ensures (p.table.Some? && p.table.value.Source? && !Compiles(engine, Pattern(p.table.value.source, "g"))) ==>
      RunParser(engine, p, raw) == Threw
  {
  }
}
