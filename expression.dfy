/**
 * `FileCrawlerExpression`: the three-level selector `projects:branches:files`,
 * each level a list of alternative patterns written `a|b|c`. The object is
 * immutable, so it is a datatype; its getters are the datatype's fields.
 */
module Expression {
  import opened Wrappers
  import opened Strings
  import opened Errors

  const FallbackSeparator: char := '|'
  const PartSeparator: char := ':'

  datatype Expression = Expression(projects: seq<string>, branches: seq<string>, files: seq<string>)

  /** An argument of `create`: either one string or an already split list. */
  datatype Part = Text(text: string) | Patterns(patterns: seq<string>)

  /** `preparePart`: a list is kept as it is, a string is exploded on `|`. */
  function PreparePart(part: Part): (r: seq<string>)
    ensures part.Patterns? ==> r == part.patterns
    ensures part.Text? ==> |r| == Count(part.text, FallbackSeparator) + 1
    ensures part.Text? ==> Join(r, FallbackSeparator) == part.text
  {
    match part
    case Patterns(ps) => ps
    case Text(s) => JoinSplit(s, FallbackSeparator); Split(s, FallbackSeparator)
  }

  /** `create`: no validation, so an empty list is accepted as it is. */
  function Create(projects: Part, branches: Part, files: Part): Expression
  {
    Expression(PreparePart(projects), PreparePart(branches), PreparePart(files))
  }

  /** `__toString`: each level imploded on `|`, the three levels imploded on `:`. */
  function ToString(e: Expression): string
  {
    Join([Join(e.projects, FallbackSeparator), Join(e.branches, FallbackSeparator),
          Join(e.files, FallbackSeparator)], PartSeparator)
  }

  function InvalidExpression(text: string): Error
  {
    InvalidArgument("Invalid expression \"" + text + "\" given.")
  }

  /** `parse`: the text must explode on `:` into exactly three parts. */
  function Parse(text: string): (r: Result<Expression, Error>)
    ensures r.Failure? <==> Count(text, PartSeparator) != 2
    ensures r.Failure? ==> r.error == InvalidExpression(text)
  {
    var parts := Split(text, PartSeparator);
    if |parts| != 3 then Failure(InvalidExpression(text))
    else Success(Create(Text(parts[0]), Text(parts[1]), Text(parts[2])))
  }

  /** Pattern lists that `__toString` can render unambiguously. */
  ghost predicate Renderable(patterns: seq<string>)
  {
    |patterns| >= 1 &&
    forall i :: 0 <= i < |patterns| ==> PartSeparator !in patterns[i] && FallbackSeparator !in patterns[i]
  }

  ghost predicate WellFormed(e: Expression)
  {
    Renderable(e.projects) && Renderable(e.branches) && Renderable(e.files)
  }

  lemma {:induction false} SplitKeepsAbsence(s: string, c: char, x: char)
    requires x !in s
    ensures forall i :: 0 <= i < |Split(s, c)| ==> x !in Split(s, c)[i]
  {
    if s != [] {
      assert x !in s[1..];
      SplitKeepsAbsence(s[1..], c, x);
    }
  }

  lemma SegmentLevel(segment: string)
    requires PartSeparator !in segment
    ensures Renderable(Split(segment, FallbackSeparator))
    ensures |Split(segment, FallbackSeparator)| == Count(segment, FallbackSeparator) + 1
  {
    SplitKeepsAbsence(segment, FallbackSeparator, PartSeparator);
  }

  /**
   * A parsed expression: each level is never empty, has one pattern more than
   * its segment has `|` characters, and no pattern holds `:` or `|`.
   */
  lemma ParsedLevels(text: string)
    requires Parse(text).Success?
    ensures var e, parts := Parse(text).value, Split(text, PartSeparator);
      && |e.projects| == Count(parts[0], FallbackSeparator) + 1
      && |e.branches| == Count(parts[1], FallbackSeparator) + 1
      && |e.files| == Count(parts[2], FallbackSeparator) + 1
      && WellFormed(e)
  {
    var parts := Split(text, PartSeparator);
    SegmentLevel(parts[0]);
    SegmentLevel(parts[1]);
    SegmentLevel(parts[2]);
  }

  /** Rendering a parsed expression gives back exactly the text that was parsed. */
  lemma ToStringParse(text: string)
    requires Parse(text).Success?
    ensures ToString(Parse(text).value) == text
  {
    var parts := Split(text, PartSeparator);
    var e := Parse(text).value;
    assert [Join(e.projects, FallbackSeparator), Join(e.branches, FallbackSeparator),
            Join(e.files, FallbackSeparator)] == parts;
    JoinSplit(text, PartSeparator);
  }

  lemma RenderedLevel(patterns: seq<string>)
    requires Renderable(patterns)
    ensures PartSeparator !in Join(patterns, FallbackSeparator)
    ensures Split(Join(patterns, FallbackSeparator), FallbackSeparator) == patterns
  {
    JoinAvoids(patterns, FallbackSeparator, PartSeparator);
    SplitJoin(patterns, FallbackSeparator);
  }

  /** Parsing a rendered well-formed expression gives back the same three lists. */
  lemma ParseToString(e: Expression)
    requires WellFormed(e)
    ensures Parse(ToString(e)) == Success(e)
  {
    var levels := [Join(e.projects, FallbackSeparator), Join(e.branches, FallbackSeparator),
                   Join(e.files, FallbackSeparator)];
    RenderedLevel(e.projects);
    RenderedLevel(e.branches);
    RenderedLevel(e.files);
    SplitJoin(levels, PartSeparator);
  }

  /**
   * `create` keeps list arguments exactly, empty ones included, and explodes
   * string arguments so that imploding the level gives the string back.
   */
  lemma CreateLevels(projects: Part, branches: Part, files: Part)
    ensures var e := Create(projects, branches, files);
      && (projects.Patterns? ==> e.projects == projects.patterns)
      && (branches.Patterns? ==> e.branches == branches.patterns)
      && (files.Patterns? ==> e.files == files.patterns)
      && (projects.Text? ==> e.projects == Split(projects.text, FallbackSeparator)
                             && Join(e.projects, FallbackSeparator) == projects.text)
      && (branches.Text? ==> e.branches == Split(branches.text, FallbackSeparator)
                             && Join(e.branches, FallbackSeparator) == branches.text)
      && (files.Text? ==> e.files == Split(files.text, FallbackSeparator)
                          && Join(e.files, FallbackSeparator) == files.text)
  {
  }
}
