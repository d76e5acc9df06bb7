/**
 * Regular expressions are a foreign engine here. A pattern is its source
 * text and flags; a match is what the engine hands back: the whole match,
 * the numbered captures and the named groups in declaration order. The
 * engine itself is a parameter, so every property proved over it holds for
 * whatever the real engine returns.
 */
module Patterns {
  import opened Common

  /** `new RegExp(source, flags)`, or a literal `/source/flags`. */
  datatype Pattern = Pattern(source: string, flags: string)

  /** Named groups of a match, `None` for a group that did not take part. */
  type NamedGroups = g: seq<(string, Option<string>)> | DistinctKeys(g)

  /**
   * One match: `whole` is `m[0]`, `captures` is `m.slice(1)`, and `groups`
   * is `m.groups`; an empty `groups` stands for `m.groups === undefined`,
   * which is what the engine gives for a pattern without named groups.
   */
  datatype RegexMatch = RegexMatch(whole: string, captures: seq<Option<string>>, groups: NamedGroups)

  /**
   * The engine: the message of the `SyntaxError` that `new RegExp(source,
   * flags)` throws (`None` when it compiles), `text.match(rx)` for a
   * non-global pattern (`None` is `null`), and `[...text.matchAll(rx)]`.
   * Either call may throw.
   */
  datatype Engine = Engine(
    compileError: Pattern -> Option<string>,
    firstMatch: (Pattern, string) -> Attempt<Option<RegexMatch>>,
    allMatches: (Pattern, string) -> Attempt<seq<RegexMatch>>)

  predicate Compiles(engine: Engine, p: Pattern) {
    engine.compileError(p).None?
  }

  /** `m.groups.name`, with `undefined` (a missing or non-participating group) as `""`. */
  function GroupText(m: RegexMatch, name: string): string {
    var g: Option<Option<string>> := Lookup(m.groups, name);
    match g
    case Some(Some(v)) => v
    case _ => ""
  }
}
