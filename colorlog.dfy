/** A line-oriented log colouriser.

    Each line of a log is compared with a fixed, ordered table of severity
    keywords.  The first rule of the table whose keyword occurs in the line
    wraps the whole line in an ANSI "select graphic rendition" escape
    (ECMA-48, section 8.3.117) giving that rule's foreground colour and
    brightness; a line that contains no keyword is written out unchanged. */
module Colorlog {
  import opened Wrappers
  import opened TextSearch

  // ---------------------------------------------------------------------
  // Colours

  /** The ANSI foreground colour codes the colouriser names. */
  const BLACK: string := "30"
  const RED: string := "31"
  const GREEN: string := "32"
  const YELLOW: string := "33"
  const BLUE: string := "34"
  const MAGENTA: string := "35"
  const CYAN: string := "36"
  const GRAY: string := "37"

  /** A foreground colour code of the eight-colour palette: "30" to "37". */
  predicate IsColorCode(c: string) {
    |c| == 2 && c[0] == '3' && '0' <= c[1] <= '7'
  }

  lemma ColorConstantsAreCodes()
    ensures IsColorCode(BLACK) && IsColorCode(RED) && IsColorCode(GREEN) && IsColorCode(YELLOW)
    ensures IsColorCode(BLUE) && IsColorCode(MAGENTA) && IsColorCode(CYAN) && IsColorCode(GRAY)
    ensures forall c :: IsColorCode(c) <==>
      c in [BLACK, RED, GREEN, YELLOW, BLUE, MAGENTA, CYAN, GRAY]
  {
    forall c | IsColorCode(c)
      ensures c in [BLACK, RED, GREEN, YELLOW, BLUE, MAGENTA, CYAN, GRAY]
    {
      assert c == [c[0], c[1]];
    }
  }

  // ---------------------------------------------------------------------
  // The escape sequence

  const ESC: char := '\U{1B}'

  /** Control sequence introducer: ESC followed by '['. */
  const CSI: string := [ESC, '[']

  /** The reset sequence that ends a coloured line: CSI with no parameter. */
  const RESET: string := CSI + "m"

  /** The escape that selects foreground colour `fg`, bright or not. */
  function Sgr(fg: string, bright: bool): (r: string)
    ensures |r| == |fg| + 5
  {
    CSI + (if bright then "1" else "0") + ";" + fg + "m"
  }

  /** Wraps `line` in the escape that selects colour `fg`, bright or not,
      and in the reset that follows it. */
  function Colorize(line: string, fg: string, bright: bool): (r: string)
    ensures |r| == |line| + |fg| + 8
    ensures r[..2] == CSI
    ensures (r[2] == '1') == bright && (r[2] == '0') == !bright
    ensures r[3] == ';' && r[4..4 + |fg|] == fg && r[4 + |fg|] == 'm'
    ensures r[5 + |fg|..5 + |fg| + |line|] == line
    ensures r[|r| - 3..] == RESET
  {
    var s := Sgr(fg, bright) + line + RESET;
    assert |CSI| == 2 && |RESET| == 3;
    assert s[..|fg| + 5] == Sgr(fg, bright);
    assert s[5 + |fg|..5 + |fg| + |line|] == line;
    assert s[|s| - 3..] == RESET;
    s
  }

  /** Text and style recovered from a coloured line whose colour is a
      two-digit code. */
  datatype Styled = Styled(line: string, fg: string, bright: bool)

  /** Reads a line written by `Colorize` with a colour from the palette back
      into its parts; `None` for any other text. */
  function Uncolorize(s: string): (r: Option<Styled>)
    ensures r.Some? ==> IsColorCode(r.value.fg)
    ensures r.Some? ==> |s| == |r.value.line| + 10
  {
    if |s| >= 10 && s[..2] == CSI && s[2] in "01" && s[3] == ';'
       && IsColorCode(s[4..6]) && s[6] == 'm' && s[|s| - 3..] == RESET
    then Some(Styled(s[7..|s| - 3], s[4..6], s[2] == '1'))
    else None
  }

  /** A line coloured in a palette colour can be read back: the line, the
      colour and the brightness are all recovered, so the colouring loses
      nothing and the line sits unchanged between the two escapes. */
  lemma UncolorizeColorize(line: string, fg: string, bright: bool)
    requires IsColorCode(fg)
    ensures Uncolorize(Colorize(line, fg, bright)) == Some(Styled(line, fg, bright))
  {
  }

  /** Conversely, every text that reads back as a coloured line is the
      colouring of what it reads back to. */
  lemma ColorizeUncolorize(s: string)
    requires Uncolorize(s).Some?
    ensures var st := Uncolorize(s).value; Colorize(st.line, st.fg, st.bright) == s
  {
  }

  /** For a two-digit colour, a coloured line is ten characters longer than
      the line itself. */
  lemma ColorizeLength(line: string, fg: string, bright: bool)
    requires IsColorCode(fg)
    ensures |Colorize(line, fg, bright)| == |line| + 10
  {
  }

  // ---------------------------------------------------------------------
  // The rule table

  /** A keyword and the style given to lines that contain it. */
  datatype Rule = Rule(keyword: string, color: string, bright: bool)

  /** The colouriser's rules, in the order in which they are tried. */
  const Rules: seq<Rule> := [
    Rule("TRACE", GRAY, false),
    Rule("INFO", GREEN, true),
    Rule("WARN", YELLOW, true),
    Rule("DEBUG", CYAN, true),
    Rule("ERROR", RED, true),
    Rule("FATAL", MAGENTA, true)
  ]

  /** Every rule of the table colours in a palette colour. */
  lemma RuleColorsAreCodes()
    ensures forall k :: 0 <= k < |Rules| ==> IsColorCode(Rules[k].color)
  {
  }

  /** The position in `rules` of the first rule whose keyword occurs in
      `line`, or `None` when no keyword occurs. */
  function FirstMatch(rules: seq<Rule>, line: string): (r: Option<nat>)
    ensures r.Some? ==> r.value < |rules| && Occurs(rules[r.value].keyword, line)
    ensures r.Some? ==> forall j :: 0 <= j < r.value ==> !Occurs(rules[j].keyword, line)
    ensures r.None? ==> forall j :: 0 <= j < |rules| ==> !Occurs(rules[j].keyword, line)
  {
    if rules == [] then None
    else if Contains(rules[0].keyword, line) then Some(0)
    else match FirstMatch(rules[1..], line)
      case None => None
      case Some(k) => Some(k + 1)
  }

  /** What the colouriser writes for `line` under `rules`. */
  function StyleLine(rules: seq<Rule>, line: string): string {
    match FirstMatch(rules, line)
    case None => line
    case Some(k) => Colorize(line, rules[k].color, rules[k].bright)
  }

  /** Tries the rules in order on one line and applies the first one whose
      keyword occurs, then stops. */
  method ApplyFirstRule(rules: seq<Rule>, line: string) returns (out: string)
    ensures out == StyleLine(rules, line)
  {
    out := line;
    var i := 0;
    while i < |rules|
      invariant 0 <= i <= |rules|
      invariant forall j :: 0 <= j < i ==> !Occurs(rules[j].keyword, line)
      invariant out == line
    {
      var rule := rules[i];
      if Contains(rule.keyword, line) {
        out := Colorize(line, rule.color, rule.bright);
        break;
      }
      i := i + 1;
    }
  }

  /** A line in which no keyword of the table occurs passes through
      unchanged, and only such a line does. */
  lemma UnchangedIffNoKeyword(rules: seq<Rule>, line: string)
    ensures StyleLine(rules, line) == line <==>
      forall j :: 0 <= j < |rules| ==> !Occurs(rules[j].keyword, line)
  {
  }

  /** The style of a line is that of the earliest rule in table order whose
      keyword occurs in it, wherever in the line the keywords stand. */
  lemma EarliestRuleWins(rules: seq<Rule>, line: string, k: nat)
    requires k < |rules| && Occurs(rules[k].keyword, line)
    requires forall j :: 0 <= j < k ==> !Occurs(rules[j].keyword, line)
    ensures StyleLine(rules, line) == Colorize(line, rules[k].color, rules[k].bright)
  {
  }

  /** A line in which a keyword occurs is coloured exactly once: removing one
      layer of colour gives back exactly the input line, whatever it holds,
      together with the style of the first matching rule. */
  lemma ColoredOnce(line: string)
    requires exists j :: 0 <= j < |Rules| && Occurs(Rules[j].keyword, line)
    ensures var k := FirstMatch(Rules, line).value;
      Uncolorize(StyleLine(Rules, line)) == Some(Styled(line, Rules[k].color, Rules[k].bright))
  {
  }

  // ---------------------------------------------------------------------
  // Examples
  //
  // Each example takes its line as a parameter fixed by its precondition
  // rather than writing the literal into the postcondition: with the
  // literal inline, the verifier tries to evaluate the whole rule search on
  // it and runs out of resources.

  /** "ERROR then INFO" is green and bright, by the INFO rule, although ERROR
      comes first in the line. */
  lemma ErrorThenInfoExample(line: string)
    requires line == "ERROR then INFO"
    ensures StyleLine(Rules, line) == Colorize(line, GREEN, true)
  {
    MissingCharacter("TRACE", line, 'T');
    assert OccursAt("INFO", line, 11);
    EarliestRuleWins(Rules, line, 1);
  }

  /** A TRACE line is wrapped in normal-intensity grey, and the reset that
      closes it is CSI "m" with no parameter. */
  lemma TraceExample(line: string)
    requires line == "this is a TRACE message\n"
    ensures StyleLine(Rules, line) == "\U{1B}[0;37m" + line + "\U{1B}[m"
  {
    assert OccursAt("TRACE", line, 10);
    EarliestRuleWins(Rules, line, 0);
    assert Sgr(GRAY, false) == "\U{1B}[0;37m";
  }

  /** An ERROR line with no keyword of an earlier rule is bright red. */
  lemma ErrorExample(line: string)
    requires line == "ERROR: disk full\n"
    ensures StyleLine(Rules, line) == "\U{1B}[1;31m" + line + "\U{1B}[m"
  {
    ErrorLineKeywords(line);
    EarliestRuleWins(Rules, line, 4);
    assert Sgr(RED, true) == "\U{1B}[1;31m";
  }

  /** Of the keywords, "ERROR: disk full\n" holds ERROR and none before it. */
  lemma ErrorLineKeywords(line: string)
    requires line == "ERROR: disk full\n"
    ensures Occurs("ERROR", line)
    ensures !Occurs("TRACE", line) && !Occurs("INFO", line)
    ensures !Occurs("WARN", line) && !Occurs("DEBUG", line)
  {
    MissingCharacter("TRACE", line, 'T');
    MissingCharacter("INFO", line, 'I');
    MissingCharacter("WARN", line, 'W');
    MissingCharacter("DEBUG", line, 'D');
    assert OccursAt("ERROR", line, 0);
  }

  // ---------------------------------------------------------------------
  // Streams of lines

  /** What the colouriser writes for each line of a stream, line by line. */
  function StyleLines(lines: seq<string>): seq<string> {
    seq(|lines|, i requires 0 <= i < |lines| => StyleLine(Rules, lines[i]))
  }

  /** Styling two stretches of input one after the other gives the lines
      styled for the first followed by those styled for the second. */
  lemma StyleLinesAppend(a: seq<string>, b: seq<string>)
    ensures StyleLines(a + b) == StyleLines(a) + StyleLines(b)
  {
  }

  /** The text made of `parts`, one after another. */
  function Concat(parts: seq<string>): string {
    if parts == [] then [] else Concat(parts[..|parts| - 1]) + parts[|parts| - 1]
  }

  lemma {:induction false} ConcatAppend(a: seq<string>, b: seq<string>)
    ensures Concat(a + b) == Concat(a) + Concat(b)
    decreases |b|
  {
    if b == [] {
      assert a + b == a;
    } else {
      var b0 := b[..|b| - 1];
      assert (a + b)[..|a + b| - 1] == a + b0;
      ConcatAppend(a, b0);
    }
  }

  /** The text written for a stream of lines. */
  function Output(lines: seq<string>): string {
    Concat(StyleLines(lines))
  }

  /** Lines are handled independently and in order: the text written for two
      stretches of input, one after the other, is the text written for the
      first followed by that written for the second. */
  lemma OutputAppend(a: seq<string>, b: seq<string>)
    ensures Output(a + b) == Output(a) + Output(b)
  {
    StyleLinesAppend(a, b);
    ConcatAppend(StyleLines(a), StyleLines(b));
  }

  /** Reads the lines one by one and writes each, coloured by the first rule
      that applies, to the output, which is returned. */
  method ColorizeStream(lines: seq<string>) returns (written: string)
    ensures written == Output(lines)
  {
    written := [];
    for n := 0 to |lines|
      invariant written == Output(lines[..n])
    {
      var line := ApplyFirstRule(Rules, lines[n]);
      assert lines[..n + 1] == lines[..n] + [lines[n]];
      StyleLinesAppend(lines[..n], [lines[n]]);
      ConcatAppend(StyleLines(lines[..n]), [line]);
      written := written + line;
    }
    assert lines[..|lines|] == lines;
  }
}
