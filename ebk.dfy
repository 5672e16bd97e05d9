/**
 * `read_guchi`: an EBK watch-list file, one code per line, turned into
 * market-prefixed codes (`0...` is Shenzhen, `1...` is Shanghai).
 */
module Ebk {
  import opened Wrappers

  /** Python's `str.isspace()` characters, the set `str.strip()` removes. */
  predicate IsSpace(c: char) {
    ('\U{0009}' <= c <= '\U{000D}') || ('\U{001C}' <= c <= '\U{0020}') || c == '\U{0085}' || c == '\U{00A0}' ||
    c == '\U{1680}' || ('\U{2000}' <= c <= '\U{200A}') || c == '\U{2028}' || c == '\U{2029}' ||
    c == '\U{202F}' || c == '\U{205F}' || c == '\U{3000}'
  }

  /** Drops the leading characters that satisfy `space`. */
  function LStrip(space: char -> bool, s: string): string {
    if s != [] && space(s[0]) then LStrip(space, s[1..]) else s
  }

  /** Drops the trailing characters that satisfy `space`. */
  function RStrip(space: char -> bool, s: string): string {
    if s != [] && space(s[|s| - 1]) then RStrip(space, s[..|s| - 1]) else s
  }

  /** `LStrip` keeps a suffix: what it drops is all space and what it keeps does not start with one. */
  lemma {:induction false} LStripFacts(space: char -> bool, s: string)
    ensures var r := LStrip(space, s);
      && |r| <= |s| && r == s[|s| - |r|..]
      && (forall i :: 0 <= i < |s| - |r| ==> space(s[i]))
      && (r != [] ==> !space(r[0]))
  {
    if s != [] && space(s[0]) {
      var t := s[1..];
      LStripFacts(space, t);
      var r := LStrip(space, t);
      assert LStrip(space, s) == r;
      assert t[|t| - |r|..] == s[|s| - |r|..];
      forall i | 0 <= i < |s| - |r| ensures space(s[i]) {
        if i > 0 {
          assert s[i] == t[i - 1];
        }
      }
    }
  }

  /** `RStrip` keeps a prefix: what it drops is all space and what it keeps does not end with one. */
  lemma {:induction false} RStripFacts(space: char -> bool, s: string)
    ensures var r := RStrip(space, s);
      && |r| <= |s| && r == s[..|r|]
      && (forall i :: |r| <= i < |s| ==> space(s[i]))
      && (r != [] ==> !space(r[|r| - 1]))
  {
    if s != [] && space(s[|s| - 1]) {
      var t := s[..|s| - 1];
      RStripFacts(space, t);
      var r := RStrip(space, t);
      assert RStrip(space, s) == r;
      assert t[..|r|] == s[..|r|];
      forall i | |r| <= i < |s| ensures space(s[i]) {
        if i < |t| {
          assert s[i] == t[i];
        }
      }
    }
  }

  /** `line.strip()` */
  function Strip(s: string): string {
    RStrip(IsSpace, LStrip(IsSpace, s))
  }

  /** `str.strip()` removes exactly the surrounding whitespace: the result is a slice with no space at either end. */
  lemma StripFacts(s: string)
    ensures exists i, j ::
      && 0 <= i <= j <= |s| && Strip(s) == s[i..j]
      && (forall k :: 0 <= k < i ==> IsSpace(s[k]))
      && (forall k :: j <= k < |s| ==> IsSpace(s[k]))
    ensures Strip(s) != [] ==> !IsSpace(Strip(s)[0]) && !IsSpace(Strip(s)[|Strip(s)| - 1])
  {
    var i, j := StripBounds(IsSpace, s);
  }

  /** Where stripping by `space` cuts: before `i` and from `j` on everything is space, and the kept ends are not. */
  lemma StripBounds(space: char -> bool, s: string) returns (i: nat, j: nat)
    ensures 0 <= i <= j <= |s| && RStrip(space, LStrip(space, s)) == s[i..j]
    ensures forall k :: 0 <= k < i ==> space(s[k])
    ensures forall k :: j <= k < |s| ==> space(s[k])
    ensures var r := RStrip(space, LStrip(space, s)); r != [] ==> !space(r[0]) && !space(r[|r| - 1])
  {
    var l := LStrip(space, s);
    LStripFacts(space, s);
    i := |s| - |l|;
    var r := RStrip(space, l);
    RStripFacts(space, l);
    j := i + |r|;
    assert r == l[..|r|] == s[i..j];
    forall k | j <= k < |s| ensures space(s[k]) {
      assert s[k] == l[k - i] && |r| <= k - i < |l|;
    }
    if r != [] {
      assert r[0] == l[0];
    }
  }

  /** One stripped line: `sz`/`sh` plus the rest for a leading `0`/`1`, nothing otherwise. */
  function ConvertLine(line: string): seq<string> {
    var code := Strip(line);
    if code == [] then []
    else if code[0] == '0' then ["sz" + code[1..]]
    else if code[0] == '1' then ["sh" + code[1..]]
    else []
  }

  /** The conversions of the lines, concatenated in line order. */
  function ConvertAll(convert: string -> seq<string>, lines: seq<string>): seq<string> {
    if lines == [] then [] else ConvertAll(convert, lines[..|lines| - 1]) + convert(lines[|lines| - 1])
  }

  /** `stock_list` after the lines. */
  function Guchi(lines: seq<string>): seq<string> {
    ConvertAll(ConvertLine, lines)
  }

  /** A line `read_guchi` keeps: not blank once stripped, and starting with `0` or `1`. */
  predicate Converts(line: string) {
    var code := Strip(line);
    code != [] && (code[0] == '0' || code[0] == '1')
  }

  /** How many of the lines `read_guchi` keeps. */
  function CountCodes(lines: seq<string>): nat {
    if lines == [] then 0
    else CountCodes(lines[..|lines| - 1]) + (if Converts(lines[|lines| - 1]) then 1 else 0)
  }

  /**
   * `read_guchi`: `lines` is `None` when the file cannot be opened, in which
   * case the error is swallowed and the empty list returned.
   */
  method ReadGuchi(lines: Option<seq<string>>) returns (stockList: seq<string>)
    ensures stockList == if lines.None? then [] else Guchi(lines.value)
  {
    stockList := [];
    if lines.None? {
      return;
    }
    var ls := lines.value;
    var i := 0;
    while i < |ls|
      invariant 0 <= i <= |ls|
      invariant stockList == Guchi(ls[..i])
    {
      GuchiStep(ls, i);
      var line := Strip(ls[i]);
      if line != [] {
        var code := line;
        if code[0] == '0' {
          stockList := stockList + ["sz" + code[1..]];
        } else if code[0] == '1' {
          stockList := stockList + ["sh" + code[1..]];
        }
      }
      i := i + 1;
    }
    assert ls[..i] == ls;
  }

  /** Converting a file is converting its lines one by one, in order. */
  lemma GuchiAppend(a: seq<string>, b: seq<string>)
    ensures Guchi(a + b) == Guchi(a) + Guchi(b)
  {
    ConvertAllAppend(ConvertLine, a, b);
  }

  lemma {:induction false} ConvertAllAppend(convert: string -> seq<string>, a: seq<string>, b: seq<string>)
    ensures ConvertAll(convert, a + b) == ConvertAll(convert, a) + ConvertAll(convert, b)
    decreases |b|
  {
    if b == [] {
      assert a + b == a;
    } else {
      var bi, x := b[..|b| - 1], b[|b| - 1];
      assert (a + b)[..|a + b| - 1] == a + bi && (a + b)[|a + b| - 1] == x;
      assert ConvertAll(convert, a + b) == ConvertAll(convert, a + bi) + convert(x);
      ConvertAllAppend(convert, a, bi);
    }
  }

  lemma GuchiStep(ls: seq<string>, i: nat)
    requires i < |ls|
    ensures Guchi(ls[..i + 1]) == Guchi(ls[..i]) + ConvertLine(ls[i])
  {
    assert ls[..i + 1][..i] == ls[..i];
  }

  /** A single line contributes its conversion. */
  lemma GuchiSingle(line: string)
    ensures Guchi([line]) == ConvertLine(line)
  {
    GuchiStep([line], 0);
    assert [line][..1] == [line];
  }

  /** `e` is the code a line `l` converts to: `sz` for a leading `0`, `sh` for a leading `1`, then the stripped line after its first character. */
  ghost predicate FromLine(e: string, l: string) {
    && Strip(l) != [] && |e| == |Strip(l)| + 1 && e[2..] == Strip(l)[1..]
    && (e[..2] == "sz" <==> Strip(l)[0] == '0')
    && (e[..2] == "sh" <==> Strip(l)[0] == '1')
  }

  /**
   * One code per kept line: every entry is `sz`/`sh` plus its line's digits after
   * the first, and every kept line has its entry.
   */
  lemma {:induction false} GuchiEntries(lines: seq<string>)
    ensures |Guchi(lines)| == CountCodes(lines)
    ensures forall e :: e in Guchi(lines) ==> |e| >= 2 && (e[..2] == "sz" || e[..2] == "sh")
    ensures forall e :: e in Guchi(lines) ==> exists l :: l in lines && FromLine(e, l)
    ensures forall l :: l in lines && Converts(l) ==> exists e :: e in Guchi(lines) && FromLine(e, l)
  {
    if lines != [] {
      var init, last := lines[..|lines| - 1], lines[|lines| - 1];
      assert lines == init + [last];
      GuchiEntries(init);
      ConvertLineFacts(last);
      assert Guchi(lines) == Guchi(init) + ConvertLine(last);
      forall e | e in Guchi(lines) ensures exists l :: l in lines && FromLine(e, l) {
        if e in Guchi(init) {
          var l :| l in init && FromLine(e, l);
          assert l in lines;
        } else {
          assert last in lines && FromLine(e, last);
        }
      }
      forall l | l in lines && Converts(l) ensures exists e :: e in Guchi(lines) && FromLine(e, l) {
        if l in init {
          var e :| e in Guchi(init) && FromLine(e, l);
          assert e in Guchi(lines);
        } else {
          assert l == last;
          var e := ConvertLine(last)[0];
          assert e in ConvertLine(last);
          assert e in Guchi(lines) && FromLine(e, l);
        }
      }
    }
  }

  /**
   * A line yields one code when it is kept and none otherwise: `sz` for a
   * leading `0`, `sh` for a leading `1`, then the stripped line after its first character.
   */
  lemma ConvertLineFacts(line: string)
    ensures |ConvertLine(line)| == if Converts(line) then 1 else 0
    ensures forall e :: e in ConvertLine(line) ==>
      && |e| >= 2 && (e[..2] == "sz" || e[..2] == "sh")
      && Strip(line) != [] && |e| == |Strip(line)| + 1 && e[2..] == Strip(line)[1..]
      && (e[..2] == "sz" <==> Strip(line)[0] == '0')
      && (e[..2] == "sh" <==> Strip(line)[0] == '1')
  {
  }
}
