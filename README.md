# colorlog in Dafny

A model of `colorlog.py`, a filter that colours log lines for a terminal.
Each input line is compared with a fixed table of six rules
(TRACE, INFO, WARN, DEBUG, ERROR, FATAL, tried in that order). The first rule
whose keyword occurs anywhere in the line wraps the line in an ANSI
"select graphic rendition" escape (ECMA-48, section 8.3.117). The escape is
`ESC [ <0|1> ; <colour> m`, followed by the line, followed by the reset
`ESC [ m`. A line that holds no keyword is written out unchanged.

Files:

- `wrappers.dfy`: module `Wrappers`, an `Option` datatype.
- `text_search.dfy`: module `TextSearch`. It is the literal-substring search
  that stands in for the compiled regular expressions. Every keyword
  is a plain word, so a regular-expression search for it finds exactly its
  occurrences as a substring. `Search` returns the leftmost occurrence.
  `Contains` is the yes/no test the colouriser makes.
- `colorlog.dfy`: module `Colorlog`. It holds the colour constants, `Colorize`
  (the source's `colorize_line`) and its inverse `Uncolorize`, and the rule
  table `Rules`. `FirstMatch` and `StyleLine` are the specification of the
  per-line selection. `ApplyFirstRule` is the inner loop over the rules with
  its early exit. `ColorizeStream` is the outer loop over the input lines.

The source reassigns its loop variable `line` in place when a rule matches.
`ApplyFirstRule` keeps the input line and returns the written line in `out`.
Until the loop exits, `out` equals the input, as `line` does in the source.

Two details of the output deserve mention:

- The reset written after a coloured line is `ESC [ m`, with no parameter
  (colorlog.py:18), not the textually different `ESC [ 0 m`. `TraceExample`
  and `ErrorExample` state the exact output for two lines.
- With several keywords in one line, the earliest rule in table order wins
  (colorlog.py:30-33), not the keyword that stands leftmost in the line.
  `ErrorThenInfoExample` shows a line where these differ.

## Model

| member | source | states |
|---|---|---|
| `TextSearch.Search` | colorlog.py:31 | the result is an occurrence of the keyword in the line, and no occurrence starts earlier; `None` exactly when the keyword occurs nowhere |
| `TextSearch.Contains` | colorlog.py:31 | the search succeeds if and only if the keyword is a substring of the line |
| `Colorlog.ColorConstantsAreCodes` | colorlog.py:5-12 | each of the eight colour constants is a two-character code from "30" to "37", and those eight are all such codes |
| `Colorlog.Colorize` | colorlog.py:14-18 | the output is CSI, then the brightness digit ('1' exactly when bright, '0' exactly when not), ';', the colour, 'm', the unchanged line, and the reset CSI "m"; its length is the line's plus the colour's plus 8 |
| `Colorlog.Uncolorize` | colorlog.py:14-18 | a text read back as a coloured line has a palette colour and is 10 characters longer than the line it carries |
| `Colorlog.UncolorizeColorize` | colorlog.py:14-18 | reading back a line coloured in a palette colour recovers the line, the colour and the brightness |
| `Colorlog.ColorizeUncolorize` | colorlog.py:14-18 | every text that reads back as a coloured line is exactly the colouring of what it reads back to |
| `Colorlog.ColorizeLength` | colorlog.py:15-18 | with a two-digit colour the output is the line's length plus 10 |
| `Colorlog.RuleColorsAreCodes` | colorlog.py:21-28 | every rule of the table colours with a code from "30" to "37" |
| `Colorlog.FirstMatch` | colorlog.py:30-33 | the chosen rule's keyword occurs in the line and no earlier rule's keyword does; `None` exactly when no rule's keyword occurs |
| `Colorlog.ApplyFirstRule` | colorlog.py:30-33 | the loop over the rules with its `break` writes exactly what the first matching rule gives, or the line itself |
| `Colorlog.UnchangedIffNoKeyword` | colorlog.py:29-34 | a line is written out unchanged if and only if none of the table's keywords occurs in it |
| `Colorlog.EarliestRuleWins` | colorlog.py:21-33 | if rule k's keyword occurs and no earlier rule's does, the line is coloured with rule k's colour and brightness, wherever the keywords stand in the line |
| `Colorlog.ColoredOnce` | colorlog.py:30-33 | a line holding a keyword is wrapped exactly once: removing one layer gives back the original line and the first matching rule's style |
| `Colorlog.ErrorThenInfoExample` | colorlog.py:21-33 | "ERROR then INFO" is coloured green and bright by the INFO rule, not red |
| `Colorlog.TraceExample` | colorlog.py:14-28 | the line "this is a TRACE message\n" is written as ESC "[0;37m", then the line, then ESC "[m" |
| `Colorlog.ErrorExample` | colorlog.py:14-28 | the line "ERROR: disk full\n" is written as ESC "[1;31m", then the line, then ESC "[m" |
| `Colorlog.StyleLine` | colorlog.py:30-34 | what is written for one line: the line itself when `FirstMatch` finds no rule, otherwise the line coloured by the rule it finds; its meaning is pinned down by `ApplyFirstRule`, `UnchangedIffNoKeyword`, `EarliestRuleWins` and `ColoredOnce` |
| `Colorlog.StyleLinesAppend` | colorlog.py:29-34 | styling two stretches of input in sequence gives the styled lines of the first followed by those of the second: each line is styled on its own, in order |
| `Colorlog.Output` | colorlog.py:29-34 | the text written for a stream: the concatenation of the lines `StyleLine` gives for its lines, in order; its meaning is pinned down by `OutputAppend` and `ColorizeStream` |
| `Colorlog.OutputAppend` | colorlog.py:29-34 | the text written for two stretches of input in sequence is the text for the first followed by the text for the second |
| `Colorlog.ColorizeStream` | colorlog.py:29-34 | the loop over the input lines writes the in-order concatenation of the per-line results |

## Left out

- Reading standard input and writing standard output (colorlog.py:29, 34): the input is a sequence of lines and the output is the text returned by `ColorizeStream`.
- Splitting the input into lines, including the trailing newline that each line keeps (colorlog.py:29): each line is an opaque string.
- The `re` module (colorlog.py:3, 22-27): the patterns are literal words, so their search is modelled as literal substring search in `TextSearch`.
- `str(fg_color)` (colorlog.py:18) is the identity on the string constants the program passes, so `Colorize` takes the colour as a string.
- File arguments, a pager option, broken-pipe handling and exit codes: `colorlog.py` has none of these, so nothing is modelled for them.
