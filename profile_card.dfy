/**
 * The profile card served to terminal clients (worker/src/index.ts): a
 * portrait and an information block, each line indented so that its visible
 * text is centred on a fixed content width, behind a global left margin.
 */
module ProfileCard {
  import opened Text
  import opened Ansi

  const CONTENT_WIDTH := 49
  const PORTRAIT_WIDTH := 25
  const MARGIN := 3
  /** `Math.floor((CONTENT_WIDTH - PORTRAIT_WIDTH) / 2)`; `/` on a positive divisor is floor division. */
  const PORTRAIT_OFFSET := (CONTENT_WIDTH - PORTRAIT_WIDTH) / 2

  /** `pad(n)`: exactly `n` spaces. */
  function Pad(n: nat): (r: string)
    ensures |r| == n
    ensures forall i :: 0 <= i < n ==> r[i] == ' '
  {
    Repeat(' ', n)
  }

  /**
   * `centerPad(w)`: the margin plus half the room `w` leaves on the content
   * width, rounded down. `" ".repeat` throws on a negative count, which only
   * widths above 55 would give.
   */
  function CenterPad(w: int): (r: string)
    requires MARGIN + (CONTENT_WIDTH - w) / 2 >= 0
    ensures Lacks(r, ESC) && Lacks(r, '\n')
    ensures MARGIN <= |r| || w > CONTENT_WIDTH
    ensures 2 * (|r| - MARGIN) <= CONTENT_WIDTH - w < 2 * (|r| - MARGIN) + 2
  {
    Pad(MARGIN + (CONTENT_WIDTH - w) / 2)
  }

  /**
   * A line of visible width `w` (at most the content width) fits in the margin
   * plus the content width, and the room left of it and right of it differ by
   * at most one column.
   */
  lemma CenterPadCentres(w: int)
    requires 0 <= w <= CONTENT_WIDTH
    ensures |CenterPad(w)| + w <= MARGIN + CONTENT_WIDTH
    ensures var left := |CenterPad(w)| - MARGIN;
            var right := CONTENT_WIDTH - w - left;
            0 <= left && (right == left || right == left + 1)
  {
  }

  /** The portrait is indented like any other centred line of its width: 15 columns. */
  lemma PortraitOffsetCentres()
    ensures PORTRAIT_OFFSET == 12
    ensures |CenterPad(PORTRAIT_WIDTH)| == MARGIN + PORTRAIT_OFFSET == 15
  {
  }

  /** One portrait line: non-empty lines are indented, empty ones are left alone. */
  function PadPortraitLine(line: string): string {
    if |line| > 0 then Pad(MARGIN + PORTRAIT_OFFSET) + line else line
  }

  function PadPortraitLines(lines: seq<string>): (r: seq<string>)
    ensures |r| == |lines|
    ensures forall i :: 0 <= i < |lines| ==> r[i] == PadPortraitLine(lines[i])
  {
    seq(|lines|, i requires 0 <= i < |lines| => PadPortraitLine(lines[i]))
  }

  /** `centeredPortrait`: split into lines, indent each, join again. */
  function CenteredPortrait(portrait: string): string {
    Join(PadPortraitLines(Split(portrait, '\n')), '\n')
  }

  /**
   * The centred portrait has the portrait's lines, in order: each non-empty
   * one behind exactly 15 spaces, each empty one unchanged.
   */
  lemma CenteredPortraitLines(portrait: string)
    ensures |Split(CenteredPortrait(portrait), '\n')| == |Split(portrait, '\n')|
    ensures forall i :: 0 <= i < |Split(portrait, '\n')| ==>
      Split(CenteredPortrait(portrait), '\n')[i]
        == if Split(portrait, '\n')[i] == "" then "" else Repeat(' ', 15) + Split(portrait, '\n')[i]
  {
    var lines := Split(portrait, '\n');
    var padded := PadPortraitLines(lines);
    forall k | 0 <= k < |padded|
      ensures Lacks(padded[k], '\n')
    {
      if |lines[k]| > 0 {
        LacksConcat(Pad(MARGIN + PORTRAIT_OFFSET), lines[k], '\n');
      }
    }
    SplitJoin(padded, '\n');
  }

  /** Drops the portrait indentation of a line. */
  function UnpadPortraitLine(line: string): string {
    if |line| >= MARGIN + PORTRAIT_OFFSET then line[MARGIN + PORTRAIT_OFFSET..] else line
  }

  function UnpadPortraitLines(lines: seq<string>): (r: seq<string>)
    ensures |r| == |lines|
    ensures forall i :: 0 <= i < |lines| ==> r[i] == UnpadPortraitLine(lines[i])
  {
    seq(|lines|, i requires 0 <= i < |lines| => UnpadPortraitLine(lines[i]))
  }

  /** Dropping the indentation of the centred portrait's lines gives back the portrait. */
  lemma CenteredPortraitRoundTrip(portrait: string)
    ensures Join(UnpadPortraitLines(Split(CenteredPortrait(portrait), '\n')), '\n') == portrait
  {
    CenteredPortraitLines(portrait);
    var original := Split(portrait, '\n');
    var unpadded := UnpadPortraitLines(Split(CenteredPortrait(portrait), '\n'));
    forall i | 0 <= i < |original|
      ensures unpadded[i] == original[i]
    {
      if original[i] != "" {
        assert (Repeat(' ', 15) + original[i])[15..] == original[i];
      }
    }
    assert unpadded == original;
    JoinSplit(portrait, '\n');
  }

  /** A line of the information block. */
  datatype InfoRow =
    | Blank
    | Centered(width: int, body: string)   // `${centerPad(width)}body`
    | Left(body: string)                   // `${pad(MARGIN)}body`

  function RowText(row: InfoRow): string
    requires row.Centered? ==> MARGIN + (CONTENT_WIDTH - row.width) / 2 >= 0
  {
    match row
    case Blank => ""
    case Centered(w, body) => CenterPad(w) + body
    case Left(body) => Pad(MARGIN) + body
  }

  const NAME := "Maarten Van Steenkiste"
  const TAGLINE := "Husband \U{B7} Father \U{B7} Maker \U{B7} Essentialist"
  const ROLE := "Software Engineer at "
  const RULE_CHAR: char := '\U{2500}'

  /** `${CYAN}caption${R}gap${link(url, text)}` */
  function ContactLine(caption: string, gap: string, url: string, text: string): string {
    CYAN + caption + RESET + gap + Link(url, text)
  }

  const NAME_LINE := BOLD + NAME + RESET
  const TAGLINE_LINE := DIM + TAGLINE + RESET
  const ROLE_LINE := ROLE + BLUE_BOLD + Link("https://craftzing.com", "Craftzing") + RESET
  const RULE_LINE := DIM + Repeat(RULE_CHAR, 41) + RESET
  const GITHUB_LINE := ContactLine("GitHub", "     ", "https://github.com/m44rten1", "github.com/m44rten1")
  const EMAIL_LINE := ContactLine("Email", "      ", "mailto:m.vansteenkiste@me.com", "m.vansteenkiste@me.com")
  const LINKEDIN_LINE := ContactLine("LinkedIn", "   ", "https://www.linkedin.com/in/maarten-van-steenkiste",
                                     "linkedin.com/in/maarten-van-steenkiste")
  const NOTES_LINE := ContactLine("Notes", "      ", "https://m44rten.com/blog/", "m44rten.com/blog/")

  /** The lines of `INFO`, which starts with a newline and ends with an empty line. */
  const INFO_ROWS: seq<InfoRow> := [
    Blank,
    Centered(22, NAME_LINE), Blank,
    Centered(39, TAGLINE_LINE), Blank,
    Centered(30, ROLE_LINE), Blank,
    Centered(41, RULE_LINE), Blank,
    Left(GITHUB_LINE), Left(EMAIL_LINE), Left(LINKEDIN_LINE), Left(NOTES_LINE),
    Blank, Blank]

  function InfoLines(rows: seq<InfoRow>): (r: seq<string>)
    requires forall i :: 0 <= i < |rows| && rows[i].Centered? ==> MARGIN + (CONTENT_WIDTH - rows[i].width) / 2 >= 0
    ensures |r| == |rows|
    ensures forall i :: 0 <= i < |rows| ==> r[i] == RowText(rows[i])
  {
    seq(|rows|, i requires 0 <= i < |rows| => RowText(rows[i]))
  }

  lemma VisibleStyled(open: string, t: string, close: string)
    requires forall i :: 0 <= i < |open| ==> IsParameterByte(open[i])
    requires forall i :: 0 <= i < |close| ==> IsParameterByte(close[i])
    requires Lacks(t, ESC)
    ensures Visible(Sgr(open) + t + Sgr(close)) == t
  {
    assert Sgr(open) + t + Sgr(close) == Sgr(open) + (t + (Sgr(close) + ""));
    VisibleSgr(open, t + (Sgr(close) + ""));
    VisiblePlain(t, Sgr(close) + "");
    VisibleSgr(close, "");
    assert t + "" == t;
  }

  /** A contact row shows its caption, the gap and the link text. */
  lemma VisibleContact(caption: string, gap: string, url: string, text: string)
    requires Lacks(caption, ESC) && Lacks(gap, ESC) && Lacks(url, BEL) && Lacks(text, ESC)
    ensures Visible(ContactLine(caption, gap, url, text)) == caption + gap + text
  {
    var link := Link(url, text);
    assert ContactLine(caption, gap, url, text) == CYAN + (caption + (RESET + (gap + (link + ""))));
    VisibleSgr("36", caption + (RESET + (gap + (link + ""))));
    VisiblePlain(caption, RESET + (gap + (link + "")));
    VisibleSgr("0", gap + (link + ""));
    VisiblePlain(gap, link + "");
    VisibleLink(url, text, "");
    assert caption + (gap + (text + "")) == caption + gap + text;
  }

  /** The visible text of each centred information line, with escapes removed. */
  lemma NameLineVisible()
    ensures Visible(NAME_LINE) == NAME
  {
    VisibleStyled("1", NAME, "0");
  }

  lemma TaglineLineVisible()
    ensures Visible(TAGLINE_LINE) == TAGLINE
  {
    VisibleStyled("2", TAGLINE, "0");
  }

  lemma RoleLineVisible()
    ensures Visible(ROLE_LINE) == ROLE + "Craftzing"
  {
    var link := Link("https://craftzing.com", "Craftzing");
    assert ROLE_LINE == ROLE + (BLUE_BOLD + (link + (RESET + "")));
    VisiblePlain(ROLE, BLUE_BOLD + (link + (RESET + "")));
    VisibleSgr("1;34", link + (RESET + ""));
    VisibleLink("https://craftzing.com", "Craftzing", RESET + "");
    VisibleSgr("0", "");
    assert ROLE + ("Craftzing" + "") == ROLE + "Craftzing";
  }

  lemma RuleLineVisible()
    ensures Visible(RULE_LINE) == Repeat(RULE_CHAR, 41)
  {
    VisibleStyled("2", Repeat(RULE_CHAR, 41), "0");
  }

  /** The visible text of each contact row, with escapes removed. */
  lemma GitHubLineVisible()
    ensures Visible(GITHUB_LINE) == "GitHub" + "     " + "github.com/m44rten1"
  {
    VisibleContact("GitHub", "     ", "https://github.com/m44rten1", "github.com/m44rten1");
  }

  lemma EmailLineVisible()
    ensures Visible(EMAIL_LINE) == "Email" + "      " + "m.vansteenkiste@me.com"
  {
    VisibleContact("Email", "      ", "mailto:m.vansteenkiste@me.com", "m.vansteenkiste@me.com");
  }

  lemma LinkedInLineVisible()
    ensures Visible(LINKEDIN_LINE) == "LinkedIn" + "   " + "linkedin.com/in/maarten-van-steenkiste"
  {
    var url := "https://www.linkedin.com/in/maarten-van-steenkiste";
    assert url == "https://www.linkedin.com/in/" + "maarten-van-steenkiste";
    LacksConcat("https://www.linkedin.com/in/", "maarten-van-steenkiste", BEL);
    VisibleContact("LinkedIn", "   ", url, "linkedin.com/in/maarten-van-steenkiste");
  }

  lemma NotesLineVisible()
    ensures Visible(NOTES_LINE) == "Notes" + "      " + "m44rten.com/blog/"
  {
    VisibleContact("Notes", "      ", "https://m44rten.com/blog/", "m44rten.com/blog/");
  }

  /**
   * The width passed to `centerPad` for each centred line is the visible
   * width of that line; no line is wider than the content width, and the
   * LinkedIn row is exactly that wide.
   */
  lemma InfoWidths()
    ensures forall i :: 0 <= i < |INFO_ROWS| && INFO_ROWS[i].Centered? ==>
      |Visible(INFO_ROWS[i].body)| == INFO_ROWS[i].width
    ensures forall i :: 0 <= i < |INFO_ROWS| && !INFO_ROWS[i].Blank? ==>
      |Visible(INFO_ROWS[i].body)| <= CONTENT_WIDTH
    ensures |Visible(LINKEDIN_LINE)| == CONTENT_WIDTH
  {
    LinkedInLineVisible();
    forall i | 0 <= i < |INFO_ROWS| && !INFO_ROWS[i].Blank?
      ensures |Visible(INFO_ROWS[i].body)| <= CONTENT_WIDTH
      ensures INFO_ROWS[i].Centered? ==> |Visible(INFO_ROWS[i].body)| == INFO_ROWS[i].width
    {
      assert i in {1, 3, 5, 7, 9, 10, 11, 12};
      if i == 1 {
        NameLineVisible();
      } else if i == 3 {
        TaglineLineVisible();
      } else if i == 5 {
        RoleLineVisible();
      } else if i == 7 {
        RuleLineVisible();
      } else if i == 9 {
        GitHubLineVisible();
      } else if i == 10 {
        EmailLineVisible();
      } else if i == 11 {
        LinkedInLineVisible();
      } else {
        NotesLineVisible();
      }
    }
  }

  /** `INFO` */
  function Info(): string {
    Join(InfoLines(INFO_ROWS), '\n')
  }

  /** `TERMINAL_OUTPUT`: the centred portrait followed by the information block. */
  function TerminalOutput(portrait: string): string {
    CenteredPortrait(portrait) + Info()
  }

  /** Each centred row, with its indentation, fits in the margin plus the content width, evenly centred. */
  lemma InfoRowsCentred()
    ensures forall i :: 0 <= i < |INFO_ROWS| && INFO_ROWS[i].Centered? ==>
      var w := INFO_ROWS[i].width;
      var left := |CenterPad(w)| - MARGIN;
      |Visible(RowText(INFO_ROWS[i]))| <= MARGIN + CONTENT_WIDTH &&
      0 <= left && (CONTENT_WIDTH - w - left == left || CONTENT_WIDTH - w - left == left + 1)
  {
    InfoWidths();
    forall i | 0 <= i < |INFO_ROWS| && INFO_ROWS[i].Centered?
      ensures |Visible(RowText(INFO_ROWS[i]))| == |CenterPad(INFO_ROWS[i].width)| + INFO_ROWS[i].width
    {
      var row := INFO_ROWS[i];
      VisiblePlain(CenterPad(row.width), row.body);
    }
    forall i | 0 <= i < |INFO_ROWS| && INFO_ROWS[i].Centered?
      ensures 0 <= INFO_ROWS[i].width <= CONTENT_WIDTH
    {
    }
    forall w | 0 <= w <= CONTENT_WIDTH
      ensures |CenterPad(w)| + w <= MARGIN + CONTENT_WIDTH
      ensures var left := |CenterPad(w)| - MARGIN;
              0 <= left && (CONTENT_WIDTH - w - left == left || CONTENT_WIDTH - w - left == left + 1)
    {
      CenterPadCentres(w);
    }
  }

  lemma Regroup(portrait: string, pad: string, open: string, name: string, close: string, tail: string)
    ensures portrait + ("" + ['\n'] + (pad + (open + name + close) + ['\n'] + tail))
         == (portrait + ['\n'] + pad + open) + name + (close + ['\n'] + tail)
  {
  }

  /** The card served to terminals names its owner. */
  lemma TerminalOutputNamesOwner(portrait: string)
    ensures Contains(TerminalOutput(portrait), "Maarten Van Steenkiste")
  {
    var lines := InfoLines(INFO_ROWS);
    var tail := Join(lines[2..], '\n');
    assert Join(lines[1..], '\n') == lines[1] + ['\n'] + tail by {
      assert lines[1..][0] == lines[1] && lines[1..][1..] == lines[2..];
    }
    assert Info() == lines[0] + ['\n'] + Join(lines[1..], '\n');
    assert lines[0] == "";
    assert lines[1] == CenterPad(22) + (BOLD + NAME + RESET);
    Regroup(CenteredPortrait(portrait), CenterPad(22), BOLD, NAME, RESET, tail);
    ContainsMiddle(CenteredPortrait(portrait) + ['\n'] + CenterPad(22) + BOLD, NAME, RESET + ['\n'] + tail);
  }
}
