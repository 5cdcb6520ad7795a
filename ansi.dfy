/**
 * Terminal escape sequences used by the profile card (worker/src/index.ts):
 * SGR colour sequences (ECMA-48, section 8.3.117: CSI, parameter bytes, final
 * byte `m`) and OSC 8 hyperlinks (an operating system command, ECMA-48,
 * section 8.3.89, ended by BEL). `Visible` is what a terminal displays: the
 * text with these sequences removed.
 */
module Ansi {
  import opened Text

  const ESC: char := '\U{1B}'
  const BEL: char := '\U{07}'

  /** A parameter byte of a control sequence (0x30-0x3F). */
  predicate IsParameterByte(c: char) {
    '\U{30}' <= c <= '\U{3F}'
  }

  /** A final byte of a control sequence (0x40-0x7E). */
  predicate IsFinalByte(c: char) {
    '\U{40}' <= c <= '\U{7E}'
  }

  /** `ESC [ params m`: Select Graphic Rendition. */
  function Sgr(params: string): string {
    [ESC, '['] + params + "m"
  }

  const BOLD := Sgr("1")
  const DIM := Sgr("2")
  const CYAN := Sgr("36")
  const BLUE_BOLD := Sgr("1;34")
  const RESET := Sgr("0")

  /** `link(url, text)`: an OSC 8 hyperlink around `text`, closed by an OSC 8 with an empty URI. */
  function Link(url: string, text: string): string {
    [ESC, ']'] + "8;;" + url + [BEL] + text + [ESC, ']'] + "8;;" + [BEL]
  }

  /** The rest of a control sequence after its final byte (all of it is dropped when there is none). */
  function SkipControlSequence(s: string): (r: string)
    ensures |r| < |s| || r == []
  {
    if s == [] then []
    else if IsFinalByte(s[0]) then s[1..]
    else SkipControlSequence(s[1..])
  }

  /** The rest of an OSC string after its BEL terminator (all of it is dropped when there is none). */
  function SkipCommandString(s: string): (r: string)
    ensures |r| < |s| || r == []
  {
    if s == [] then []
    else if s[0] == BEL then s[1..]
    else SkipCommandString(s[1..])
  }

  /** The characters a terminal displays: `s` without control sequences and OSC strings. */
  function Visible(s: string): string
    decreases |s|
  {
    if s == [] then []
    else if |s| >= 2 && s[0] == ESC && s[1] == '[' then Visible(SkipControlSequence(s[2..]))
    else if |s| >= 2 && s[0] == ESC && s[1] == ']' then Visible(SkipCommandString(s[2..]))
    else [s[0]] + Visible(s[1..])
  }

  lemma {:induction false} SkipControlSequenceAfter(params: string, f: char, rest: string)
    requires forall i :: 0 <= i < |params| ==> IsParameterByte(params[i])
    requires IsFinalByte(f)
    ensures SkipControlSequence(params + [f] + rest) == rest
  {
    if params != [] {
      SkipControlSequenceAfter(params[1..], f, rest);
      assert (params + [f] + rest)[1..] == params[1..] + [f] + rest;
    } else {
      assert params + [f] + rest == [f] + rest;
    }
  }

  lemma {:induction false} SkipCommandStringAfter(body: string, rest: string)
    requires Lacks(body, BEL)
    ensures SkipCommandString(body + [BEL] + rest) == rest
  {
    if body != [] {
      SkipCommandStringAfter(body[1..], rest);
      assert (body + [BEL] + rest)[1..] == body[1..] + [BEL] + rest;
    } else {
      assert body + [BEL] + rest == [BEL] + rest;
    }
  }

  /** Text without ESC is displayed as it is. */
  lemma {:induction false} VisiblePlain(t: string, rest: string)
    requires Lacks(t, ESC)
    ensures Visible(t + rest) == t + Visible(rest)
  {
    if t != [] {
      VisiblePlain(t[1..], rest);
      assert (t + rest)[1..] == t[1..] + rest;
      assert t == [t[0]] + t[1..];
    } else {
      assert t + rest == rest;
    }
  }

  /** An SGR sequence takes no room on screen. */
  lemma VisibleSgr(params: string, rest: string)
    requires forall i :: 0 <= i < |params| ==> IsParameterByte(params[i])
    ensures Visible(Sgr(params) + rest) == Visible(rest)
  {
    var s := Sgr(params) + rest;
    assert s[0] == ESC && s[1] == '[';
    assert s[2..] == params + ['m'] + rest;
    SkipControlSequenceAfter(params, 'm', rest);
  }

  /** An OSC string ended by BEL takes no room on screen. */
  lemma VisibleCommandString(body: string, rest: string)
    requires Lacks(body, BEL)
    ensures Visible([ESC, ']'] + body + [BEL] + rest) == Visible(rest)
  {
    var s := [ESC, ']'] + body + [BEL] + rest;
    assert s[0] == ESC && s[1] == ']';
    assert s[2..] == body + [BEL] + rest;
    SkipCommandStringAfter(body, rest);
  }

  /** Of a hyperlink only its text is displayed. */
  lemma VisibleLink(url: string, text: string, rest: string)
    requires Lacks(url, BEL) && Lacks(text, ESC)
    ensures Visible(Link(url, text) + rest) == text + Visible(rest)
  {
    var open := "8;;" + url;
    assert Lacks(open, BEL) by { LacksConcat("8;;", url, BEL); }
    var close := [ESC, ']'] + "8;;" + [BEL] + rest;
    assert Link(url, text) + rest == [ESC, ']'] + open + [BEL] + (text + close);
    VisibleCommandString(open, text + close);
    VisiblePlain(text, close);
    VisibleCommandString("8;;", rest);
  }

  /** `link(url, text)` shows exactly `text`. */
  lemma LinkShowsText(url: string, text: string)
    requires Lacks(url, BEL) && Lacks(text, ESC)
    ensures Visible(Link(url, text)) == text
  {
    VisibleLink(url, text, "");
    assert Link(url, text) + "" == Link(url, text);
    assert text + "" == text;
  }
}
