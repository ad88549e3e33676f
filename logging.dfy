/** The bot's logger: the lines it writes, the numeric severities of Python's
    `logging`, and the console formatter's colour table and template
    (class `LoggingFormatter`). */
module Logging {
  import opened Wrappers
  import Text

  /** One line handed to the `discord_bot` logger, with its severity. */
  datatype LogLine = Info(text: string) | Error(text: string)

  // Numeric severities of Python's `logging` module.
  const DEBUG: int := 10
  const INFO: int := 20
  const WARNING: int := 30
  const ERROR: int := 40
  const CRITICAL: int := 50

  // ANSI escape sequences of the formatter's class attributes.
  const Black: string := "\U{1B}[30m"
  const Red: string := "\U{1B}[31m"
  const Green: string := "\U{1B}[32m"
  const Yellow: string := "\U{1B}[33m"
  const Blue: string := "\U{1B}[34m"
  const Gray: string := "\U{1B}[38m"
  const Reset: string := "\U{1B}[0m"
  const Bold: string := "\U{1B}[1m"

  /** The `COLORS` table: the escape prefix of each of the five severities;
      any other level number is missing from the table. */
  function LevelColor(levelno: int): (c: Option<string>)
    ensures c.Some? <==> levelno in {DEBUG, INFO, WARNING, ERROR, CRITICAL}
    ensures c.Some? ==> '(' !in c.value
  {
    if levelno == DEBUG then Some(Gray + Bold)
    else if levelno == INFO then Some(Blue + Bold)
    else if levelno == WARNING then Some(Yellow + Bold)
    else if levelno == ERROR then Some(Red)
    else if levelno == CRITICAL then Some(Red + Bold)
    else None
  }

  /** The five colours are pairwise distinct. */
  lemma LevelColorsDistinct(a: int, b: int)
    requires LevelColor(a).Some? && LevelColor(b).Some?
    ensures LevelColor(a) == LevelColor(b) ==> a == b
  {
    var ca, cb := LevelColor(a).value, LevelColor(b).value;
    if ca == cb {
      assert |ca| == |cb| && ca[3] == cb[3];
    }
  }

  /** The error `self.COLORS[record.levelno]` raises for a level not in the table. */
  datatype KeyError = KeyError(key: int)

  // The four placeholders of the console template.
  const BlackMark: string := "(black)"
  const ResetMark: string := "(reset)"
  const LevelMark: string := "(levelcolor)"
  const GreenMark: string := "(green)"

  /** The console template before substitution,
      `(black){asctime}(reset) (levelcolor){levelname:<8}(reset) (green){name}(reset) {message}`. */
  const Template: string :=
    BlackMark + "{asctime}" + ResetMark + " " +
    LevelMark + "{levelname:<8}" + ResetMark + " " +
    GreenMark + "{name}" + ResetMark + " {message}"

  /** The console template once all four placeholders are substituted, for
      the colour of the record's level: each of the three fields is preceded
      by its colour and followed by the reset sequence. */
  function Rendered(levelColor: string): string
  {
    Black + Bold + "{asctime}" + Reset + " " +
    levelColor + "{levelname:<8}" + Reset + " " +
    Green + Bold + "{name}" + Reset + " {message}"
  }

  // ---------------------------------------------------------------------
  // Proof that four `str.replace` calls turn Template into Rendered: the
  // template is cut into pieces, each a placeholder or free of '(', and
  // every replace then acts piece by piece.

  function Concat(pieces: seq<string>): string
    decreases |pieces|
  {
    if pieces == [] then "" else pieces[0] + Concat(pieces[1..])
  }

  predicate IsMark(p: string)
  {
    p == BlackMark || p == ResetMark || p == LevelMark || p == GreenMark
  }

  /** Every piece is a placeholder or contains no '(' at all. */
  predicate Tokenized(pieces: seq<string>)
  {
    forall i :: 0 <= i < |pieces| ==> IsMark(pieces[i]) || '(' !in pieces[i]
  }

  function SubstPiece(p: string, mark: string, value: string): string
  {
    if p == mark then value else p
  }

  /** The pieces after one `replace(mark, value)`. */
  function Subst(pieces: seq<string>, mark: string, value: string): (r: seq<string>)
    ensures |r| == |pieces|
    ensures forall i :: 0 <= i < |r| ==> r[i] == SubstPiece(pieces[i], mark, value)
    decreases |pieces|
  {
    if pieces == [] then [] else [SubstPiece(pieces[0], mark, value)] + Subst(pieces[1..], mark, value)
  }

  /** What the four replacements make of one piece. */
  function FillPiece(p: string, levelColor: string): string
  {
    SubstPiece(SubstPiece(SubstPiece(SubstPiece(p, BlackMark, Black + Bold), ResetMark, Reset), LevelMark, levelColor), GreenMark, Green + Bold)
  }

  /** The pieces after all four replacements, in the order `format` makes them. */
  function Substitute(pieces: seq<string>, levelColor: string): (r: seq<string>)
    ensures |r| == |pieces|
    ensures forall i :: 0 <= i < |r| ==> r[i] == FillPiece(pieces[i], levelColor)
  {
    Subst(Subst(Subst(Subst(pieces, BlackMark, Black + Bold), ResetMark, Reset), LevelMark, levelColor), GreenMark, Green + Bold)
  }

  /** The four replacements on a string, in the order `format` makes them. */
  function ReplaceAll(s: string, levelColor: string): string
  {
    Text.Replace(Text.Replace(Text.Replace(Text.Replace(s, BlackMark, Black + Bold), ResetMark, Reset), LevelMark, levelColor), GreenMark, Green + Bold)
  }

  /** Each placeholder opens with '(' and has no other '('. */
  lemma MarkShape(q: string)
    requires IsMark(q)
    ensures |q| >= 2 && q[0] == '(' && '(' !in q[1..]
  {
    if q == BlackMark {
      assert q[1..] == "black)";
    } else if q == ResetMark {
      assert q[1..] == "reset)";
    } else if q == LevelMark {
      assert q[1..] == "levelcolor)";
    } else {
      assert q[1..] == "green)";
    }
  }

  /** The second character tells the placeholders apart. */
  lemma MarksDiffer(q: string, p: string)
    requires IsMark(q) && IsMark(p) && q != p
    ensures |q| >= 2 && |p| >= 2 && q[1] != p[1]
  {
    assert BlackMark[1] == 'b' && ResetMark[1] == 'r' && LevelMark[1] == 'l' && GreenMark[1] == 'g';
  }

  /** A placeholder other than `pat` is left alone by `replace(pat, _)`. */
  lemma ReplaceOtherMark(q: string, t: string, pat: string, value: string)
    requires |q| >= 2 && |pat| >= 2 && q[0] == pat[0] == '(' && q[1] != pat[1] && '(' !in q[1..]
    ensures Text.Replace(q + t, pat, value) == q + Text.Replace(t, pat, value)
  {
    var s := q + t;
    assert s[1] == q[1];
    assert !Text.StartsWith(s, pat);
    Text.ReplaceSkip(s, pat, value);
    assert s[1..] == q[1..] + t;
    Text.ReplaceFreePrefix(q[1..], t, pat, value);
    assert [s[0]] + q[1..] == q;
  }

  /** Replacing a placeholder in a tokenized string is substituting it piece
      by piece. */
  lemma {:induction false} ReplacePieces(pieces: seq<string>, mark: string, value: string)
    requires IsMark(mark) && '(' !in value && Tokenized(pieces)
    ensures Text.Replace(Concat(pieces), mark, value) == Concat(Subst(pieces, mark, value))
    ensures Tokenized(Subst(pieces, mark, value))
    decreases |pieces|
  {
    if pieces != [] {
      var p, rest := pieces[0], pieces[1..];
      assert Tokenized(rest) by {
        forall i | 0 <= i < |rest| ensures IsMark(rest[i]) || '(' !in rest[i] {
          assert rest[i] == pieces[i + 1];
        }
      }
      ReplacePieces(rest, mark, value);
      MarkShape(mark);
      if p == mark {
        Text.ReplaceHit(Concat(rest), mark, value);
      } else if IsMark(p) {
        MarkShape(p);
        MarksDiffer(p, mark);
        ReplaceOtherMark(p, Concat(rest), mark, value);
      } else {
        Text.ReplaceFreePrefix(p, Concat(rest), mark, value);
      }
    }
  }

  lemma ReplaceAllPieces(pieces: seq<string>, c: string)
    requires Tokenized(pieces) && '(' !in c
    ensures ReplaceAll(Concat(pieces), c) == Concat(Substitute(pieces, c))
  {
    ReplacePieces(pieces, BlackMark, Black + Bold);
    var p1 := Subst(pieces, BlackMark, Black + Bold);
    ReplacePieces(p1, ResetMark, Reset);
    var p2 := Subst(p1, ResetMark, Reset);
    ReplacePieces(p2, LevelMark, c);
    var p3 := Subst(p2, LevelMark, c);
    ReplacePieces(p3, GreenMark, Green + Bold);
  }

  lemma {:induction false} ConcatAppend(a: seq<string>, b: seq<string>)
    ensures Concat(a + b) == Concat(a) + Concat(b)
    decreases |a|
  {
    if a == [] {
      assert a + b == b;
    } else {
      assert (a + b)[1..] == a[1..] + b;
      ConcatAppend(a[1..], b);
    }
  }

  lemma SubstituteAppend(a: seq<string>, b: seq<string>, c: string)
    ensures Substitute(a + b, c) == Substitute(a, c) + Substitute(b, c)
  {
    var l, r := Substitute(a + b, c), Substitute(a, c) + Substitute(b, c);
    forall i | 0 <= i < |l|
      ensures l[i] == r[i]
    {
      if i < |a| {
        assert (a + b)[i] == a[i];
      } else {
        assert (a + b)[i] == b[i - |a|];
      }
    }
  }

  lemma {:induction false} ConcatParenFree(pieces: seq<string>)
    requires forall i :: 0 <= i < |pieces| ==> '(' !in pieces[i]
    ensures '(' !in Concat(pieces)
    decreases |pieces|
  {
    if pieces != [] {
      ConcatParenFree(pieces[1..]);
    }
  }

  /** One coloured field of the template: its colour placeholder, the field,
      the reset placeholder and what follows up to the next field. */
  function Group(mark: string, field: string, after: string): seq<string>
  {
    [mark, field, ResetMark, after]
  }

  /** A piece without '(' is left as it is. */
  lemma FillLiteral(p: string, c: string)
    requires '(' !in p
    ensures FillPiece(p, c) == p
  {
    MarkShape(BlackMark);
    MarkShape(ResetMark);
    MarkShape(LevelMark);
    MarkShape(GreenMark);
  }

  /** What each placeholder becomes. */
  lemma FillMarks(c: string)
    requires '(' !in c
    ensures FillPiece(BlackMark, c) == Black + Bold
    ensures FillPiece(ResetMark, c) == Reset
    ensures FillPiece(LevelMark, c) == c
    ensures FillPiece(GreenMark, c) == Green + Bold
    ensures '(' !in Black + Bold && '(' !in Reset && '(' !in Green + Bold
  {
    MarksDiffer(BlackMark, ResetMark);
    MarksDiffer(BlackMark, LevelMark);
    MarksDiffer(BlackMark, GreenMark);
    MarksDiffer(ResetMark, LevelMark);
    MarksDiffer(ResetMark, GreenMark);
    MarksDiffer(LevelMark, GreenMark);
    FillLiteral(Black + Bold, c);
    FillLiteral(Reset, c);
    FillLiteral(Green + Bold, c);
    FillLiteral(c, c);
  }

  lemma GroupTokens(mark: string, field: string, after: string)
    requires IsMark(mark) && '(' !in field && '(' !in after
    ensures Tokenized(Group(mark, field, after))
    ensures Concat(Group(mark, field, after)) == mark + field + ResetMark + after
  {
    Concat4(mark, field, ResetMark, after);
  }

  lemma GroupFacts(mark: string, field: string, after: string, c: string)
    requires IsMark(mark) && '(' !in field && '(' !in after && '(' !in c
    requires '(' !in FillPiece(mark, c)
    ensures Concat(Substitute(Group(mark, field, after), c)) == FillPiece(mark, c) + field + Reset + after
    ensures '(' !in Concat(Substitute(Group(mark, field, after), c))
  {
    var g := Group(mark, field, after);
    var sg := Substitute(g, c);
    FillMarks(c);
    FillLiteral(field, c);
    FillLiteral(after, c);
    assert sg[0] == FillPiece(mark, c);
    assert sg[1] == field;
    assert sg[2] == Reset;
    assert sg[3] == after;
    assert sg == [FillPiece(mark, c), field, Reset, after];
    Concat4(FillPiece(mark, c), field, Reset, after);
    ConcatParenFree(sg);
  }

  lemma Concat4(a: string, b: string, c: string, d: string)
    ensures Concat([a, b, c, d]) == a + b + c + d
  {
    ConcatCons(d, []);
    assert [d] + [] == [d];
    ConcatCons(c, [d]);
    assert [c] + [d] == [c, d];
    ConcatCons(b, [c, d]);
    assert [b] + [c, d] == [b, c, d];
    ConcatCons(a, [b, c, d]);
    assert [a] + [b, c, d] == [a, b, c, d];
  }

  lemma {:induction false} ConcatCons(p: string, rest: seq<string>)
    ensures Concat([p] + rest) == p + Concat(rest)
  {
    assert ([p] + rest)[1..] == rest;
  }

  const TemplatePieces: seq<string> :=
    Group(BlackMark, "{asctime}", " ") + Group(LevelMark, "{levelname:<8}", " ") + Group(GreenMark, "{name}", " {message}")

  lemma TemplateAssociates()
    ensures (BlackMark + "{asctime}" + ResetMark + " ") + (LevelMark + "{levelname:<8}" + ResetMark + " ") +
      (GreenMark + "{name}" + ResetMark + " {message}") == Template
  {
  }

  lemma RenderedAssociates(c: string)
    ensures (Black + Bold + "{asctime}" + Reset + " ") + (c + "{levelname:<8}" + Reset + " ") +
      (Green + Bold + "{name}" + Reset + " {message}") == Rendered(c)
  {
  }

  lemma TemplateIsPieces()
    ensures Concat(TemplatePieces) == Template
    ensures Tokenized(TemplatePieces)
  {
    var g1, g2, g3 := Group(BlackMark, "{asctime}", " "), Group(LevelMark, "{levelname:<8}", " "), Group(GreenMark, "{name}", " {message}");
    GroupTokens(BlackMark, "{asctime}", " ");
    GroupTokens(LevelMark, "{levelname:<8}", " ");
    GroupTokens(GreenMark, "{name}", " {message}");
    ConcatAppend(g1 + g2, g3);
    ConcatAppend(g1, g2);
    TemplateAssociates();
  }

  lemma RenderedIsPieces(c: string)
    requires '(' !in c
    ensures Concat(Substitute(TemplatePieces, c)) == Rendered(c)
    ensures '(' !in Rendered(c)
  {
    var g1, g2, g3 := Group(BlackMark, "{asctime}", " "), Group(LevelMark, "{levelname:<8}", " "), Group(GreenMark, "{name}", " {message}");
    FillMarks(c);
    GroupFacts(BlackMark, "{asctime}", " ", c);
    GroupFacts(LevelMark, "{levelname:<8}", " ", c);
    GroupFacts(GreenMark, "{name}", " {message}", c);
    SubstituteAppend(g1 + g2, g3, c);
    SubstituteAppend(g1, g2, c);
    var s1, s2, s3 := Substitute(g1, c), Substitute(g2, c), Substitute(g3, c);
    ConcatAppend(s1 + s2, s3);
    ConcatAppend(s1, s2);
    RenderedAssociates(c);
  }

  /** Substituting the four placeholders in turn, as `format` does, yields
      the rendered template and leaves no '(' behind. */
  lemma SubstituteTemplate(c: string)
    requires '(' !in c
    ensures ReplaceAll(Template, c) == Rendered(c)
    ensures '(' !in Rendered(c)
  {
    TemplateIsPieces();
    ReplaceAllPieces(TemplatePieces, c);
    RenderedIsPieces(c);
  }

  /** `LoggingFormatter.format` up to the template it hands to
      `logging.Formatter`: look the level up in the colour table, then
      substitute the four placeholders one after the other. The result has
      the reset sequence after the timestamp, after the level name and after
      the logger name, and no placeholder is left. */
  method FormatTemplate(levelno: int) returns (r: Result<string, KeyError>)
    ensures r.Failure? <==> levelno !in {DEBUG, INFO, WARNING, ERROR, CRITICAL}
    ensures r.Failure? ==> r.error == KeyError(levelno)
    ensures r.Success? ==> r.value == Rendered(LevelColor(levelno).value)
    ensures r.Success? ==> '(' !in r.value
  {
    var color := LevelColor(levelno);
    if color.None? {
      return Failure(KeyError(levelno));
    }
    var logColor := color.value;
    var format := Template;
    format := Text.Replace(format, BlackMark, Black + Bold);
    format := Text.Replace(format, ResetMark, Reset);
    format := Text.Replace(format, LevelMark, logColor);
    format := Text.Replace(format, GreenMark, Green + Bold);
    SubstituteTemplate(logColor);
    r := Success(format);
  }
}
