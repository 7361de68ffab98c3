/**
 * Command-line action selection: `render --html H --size WxH --output O [--once]`
 * renders once; anything else starts the browser.
 */
module CliAction {
  import opened Wrappers

  newtype u32 = x: int | 0 <= x < 0x1_0000_0000

  const U32_MAX: int := 0xFFFF_FFFF

  datatype RenderOnceParams = RenderOnceParams(htmlPath: string, viewportSize: (u32, u32), outputPath: string)

  datatype Action = RenderOnce(params: RenderOnceParams) | StartMain

  /** The arguments of the `render` subcommand as the argument parser hands them over. */
  datatype RenderMatches = RenderMatches(html: Option<string>, size: Option<string>, output: Option<string>, once: bool)

  /** The parsed command line: the `render` subcommand, when given. */
  datatype ArgMatches = ArgMatches(render: Option<RenderMatches>)

  /** The source panics in both cases: a required argument missing, or fewer than two sizes. */
  datatype CliError = MissingArgument(name: string) | MalformedSize

  /** The pieces of `s` between occurrences of `sep`; there is always at least one. */
  function Split(s: string, sep: char): (r: seq<string>)
    ensures |r| >= 1
  {
    if s == [] then [[]]
    else
      var rest := Split(s[1..], sep);
      if s[0] == sep then [[]] + rest else [[s[0]] + rest[0]] + rest[1..]
  }

  /** No piece produced by `Split` contains the separator. */
  lemma {:induction false} SplitPiecesHaveNoSep(s: string, sep: char)
    ensures forall k :: 0 <= k < |Split(s, sep)| ==> sep !in Split(s, sep)[k]
  {
    if s != [] {
      SplitPiecesHaveNoSep(s[1..], sep);
      var rest := Split(s[1..], sep);
      if s[0] != sep {
        var r := Split(s, sep);
        assert r == [[s[0]] + rest[0]] + rest[1..];
        forall k | 0 <= k < |r|
          ensures sep !in r[k]
        {
          if k > 0 {
            assert r[k] == rest[k];
          }
        }
      }
    }
  }

  /** The pieces joined back together, with `sep` between neighbours. */
  function Join(parts: seq<string>, sep: char): string
    requires |parts| >= 1
  {
    if |parts| == 1 then parts[0] else parts[0] + [sep] + Join(parts[1..], sep)
  }

  predicate IsDigit(c: char)
  {
    '0' <= c <= '9'
  }

  predicate AllDigits(s: string)
  {
    forall k :: 0 <= k < |s| ==> IsDigit(s[k])
  }

  /** The number written by a string of decimal digits. */
  function DigitsValue(s: string): nat
    requires AllDigits(s)
  {
    if s == [] then 0 else DigitsValue(s[..|s| - 1]) * 10 + (s[|s| - 1] as int - '0' as int)
  }

  /**
   * Reads an unsigned 32-bit decimal number: an optional leading `+` followed
   * by at least one digit, and nothing else; a value above `U32_MAX` is refused.
   */
  function ParseU32(s: string): (r: Option<u32>)
    ensures r.Some? ==> (s != [] && AllDigits(s)) || (|s| > 1 && s[0] == '+' && AllDigits(s[1..]))
  {
    var digits := if |s| > 1 && s[0] == '+' then s[1..] else s;
    if digits != [] && AllDigits(digits) && DigitsValue(digits) <= U32_MAX then
      Some(DigitsValue(digits) as u32)
    else
      None
  }

  /** The decimal rendering of `n`, without leading zeros. */
  function Show(n: nat): (r: string)
    ensures r != [] && AllDigits(r)
  {
    var digit := ['0' + (n % 10) as char];
    if n < 10 then digit else Show(n / 10) + digit
  }

  /** The numbers that parse, in order; the other pieces are dropped. */
  function Accepted(pieces: seq<string>): (r: seq<u32>)
    ensures |r| <= |pieces|
  {
    if pieces == [] then []
    else
      var head := match ParseU32(pieces[0]) case Some(v) => [v] case None => [];
      head + Accepted(pieces[1..])
  }

  /** The first `n` elements of `s`, or all of them when there are fewer. */
  function Take<T>(s: seq<T>, n: nat): seq<T>
  {
    if |s| <= n then s else s[..n]
  }

  /**
   * A viewport size written `WxH`: the first two pieces between `x`s that
   * parse as numbers; fails when fewer than two do.
   */
  function ParseSize(raw: string): (r: Result<(u32, u32), CliError>)
    ensures var nums := Accepted(Split(raw, 'x'));
            && (r.Ok? <==> |nums| >= 2)
            && (r.Ok? ==> r.value == (nums[0], nums[1]))
            && (r.Err? ==> r.error == MalformedSize)
  {
    var sizeParams := Take(Accepted(Split(raw, 'x')), 2);
    if |sizeParams| >= 2 then Ok((sizeParams[0], sizeParams[1])) else Err(MalformedSize)
  }

  /**
   * `RenderOnce` when the `render` subcommand has all its arguments, a
   * well-formed size and `--once`; `StartMain` without the subcommand, or with
   * it but without `--once`. The size is parsed before `--once` is looked at.
   */
  function GetAction(matches: ArgMatches): (r: Result<Action, CliError>)
    ensures matches.render.None? ==> r == Ok(StartMain)
    ensures matches.render.Some? ==>
      var m := matches.render.value;
      && (m.html.None? ==> r == Err(MissingArgument("html")))
      && (m.html.Some? && m.size.None? ==> r == Err(MissingArgument("size")))
      && (m.html.Some? && m.size.Some? && m.output.None? ==> r == Err(MissingArgument("output")))
      && (m.html.Some? && m.size.Some? && m.output.Some? ==>
            && (ParseSize(m.size.value).Err? ==> r == Err(MalformedSize))
            && (ParseSize(m.size.value).Ok? && !m.once ==> r == Ok(StartMain))
            && (ParseSize(m.size.value).Ok? && m.once ==>
                  r == Ok(RenderOnce(RenderOnceParams(m.html.value, ParseSize(m.size.value).value, m.output.value)))))
    ensures r.Ok? && r.value.RenderOnce? ==> matches.render.Some? && matches.render.value.once
  {
    match matches.render
    case None => Ok(StartMain)
    case Some(m) =>
      if m.html.None? then Err(MissingArgument("html"))
      else if m.size.None? then Err(MissingArgument("size"))
      else if m.output.None? then Err(MissingArgument("output"))
      else
        var html, rawSize, outputPath := m.html.value, m.size.value, m.output.value;
        var isRenderOnce := m.once;
        match ParseSize(rawSize)
        case Err(e) => Err(e)
        case Ok(viewportSize) =>
          if isRenderOnce then Ok(RenderOnce(RenderOnceParams(html, viewportSize, outputPath)))
          else Ok(StartMain)
  }

  /** Joining the pieces gives back the string that was split. */
  lemma {:induction false} JoinSplit(s: string, sep: char)
    ensures Join(Split(s, sep), sep) == s
  {
    if s != [] {
      JoinSplit(s[1..], sep);
      var rest := Split(s[1..], sep);
      if s[0] != sep && |rest| > 1 {
        assert rest == [rest[0]] + rest[1..];
        assert Join(rest, sep) == rest[0] + [sep] + Join(rest[1..], sep);
      }
      assert s == [s[0]] + s[1..];
    }
  }

  /** A piece without `sep` splits into itself. */
  lemma {:induction false} SplitWithoutSep(s: string, sep: char)
    requires sep !in s
    ensures Split(s, sep) == [s]
  {
    if s != [] {
      SplitWithoutSep(s[1..], sep);
      assert s[0] != sep;
      assert [s[0]] + s[1..] == s;
      assert Split(s, sep) == [[s[0]] + Split(s[1..], sep)[0]] + Split(s[1..], sep)[1..];
    }
  }

  /** Splitting `a`, `sep`, `b` with no `sep` in `a` gives `a` followed by the pieces of `b`. */
  lemma {:induction false} SplitAfterPiece(a: string, sep: char, b: string)
    requires sep !in a
    ensures Split(a + [sep] + b, sep) == [a] + Split(b, sep)
  {
    SplitAround(a, sep, b);
    SplitWithoutSep(a, sep);
  }

  /** Splitting undoes joining pieces that do not contain the separator. */
  lemma {:induction false} SplitJoin(parts: seq<string>, sep: char)
    requires |parts| >= 1 && forall k :: 0 <= k < |parts| ==> sep !in parts[k]
    ensures Split(Join(parts, sep), sep) == parts
  {
    if |parts| == 1 {
      SplitWithoutSep(parts[0], sep);
    } else {
      SplitJoin(parts[1..], sep);
      SplitAfterPiece(parts[0], sep, Join(parts[1..], sep));
    }
  }

  /** A separator in front ends an empty first piece. */
  lemma SplitConsSep(s: string, sep: char)
    ensures Split([sep] + s, sep) == [[]] + Split(s, sep)
  {
    assert ([sep] + s)[0] == sep;
    assert ([sep] + s)[1..] == s;
  }

  /** Any other character in front starts the first piece. */
  lemma SplitConsOther(c: char, s: string, sep: char)
    requires c != sep
    ensures Split([c] + s, sep) == [[c] + Split(s, sep)[0]] + Split(s, sep)[1..]
  {
    assert ([c] + s)[0] == c;
    assert ([c] + s)[1..] == s;
  }

  /** Splitting at one occurrence of `sep` splits each side on its own. */
  lemma {:induction false} SplitAround(a: string, sep: char, b: string)
    ensures Split(a + [sep] + b, sep) == Split(a, sep) + Split(b, sep)
  {
    if a == [] {
      assert a + [sep] + b == [sep] + b;
      SplitConsSep(b, sep);
    } else {
      var c, a' := a[0], a[1..];
      SplitAround(a', sep, b);
      SplitAroundStep(c, a' + [sep] + b, a', Split(b, sep), sep);
      assert a == [c] + a';
      assert a + [sep] + b == [c] + (a' + [sep] + b);
    }
  }

  /** The inductive step of `SplitAround`: one character put in front of both `rest` and `a`,
      where `rest` splits into the pieces of `a` followed by `tail`. */
  lemma SplitAroundStep(c: char, rest: string, a: string, tail: seq<string>, sep: char)
    requires Split(rest, sep) == Split(a, sep) + tail
    ensures Split([c] + rest, sep) == Split([c] + a, sep) + tail
  {
    if c == sep {
      SplitAroundSepStep(rest, a, tail, sep);
    } else {
      SplitAroundOtherStep(c, rest, a, tail, sep);
    }
  }

  lemma SplitAroundSepStep(rest: string, a: string, tail: seq<string>, sep: char)
    requires Split(rest, sep) == Split(a, sep) + tail
    ensures Split([sep] + rest, sep) == Split([sep] + a, sep) + tail
  {
    var A := Split(a, sep);
    SplitConsSep(rest, sep);
    SplitConsSep(a, sep);
    assert [[]] + (A + tail) == ([[]] + A) + tail;
  }

  lemma SplitAroundOtherStep(c: char, rest: string, a: string, tail: seq<string>, sep: char)
    requires c != sep && Split(rest, sep) == Split(a, sep) + tail
    ensures Split([c] + rest, sep) == Split([c] + a, sep) + tail
  {
    SplitConsOther(c, rest, sep);
    SplitConsOther(c, a, sep);
    ExtendFirstPiece([c], Split(a, sep), tail);
  }

  /** Prefixing the first piece commutes with appending further pieces. */
  lemma ExtendFirstPiece(p: string, A: seq<string>, tail: seq<string>)
    requires |A| >= 1
    ensures [p + (A + tail)[0]] + (A + tail)[1..] == ([p + A[0]] + A[1..]) + tail
  {
    assert (A + tail)[0] == A[0];
    assert (A + tail)[1..] == A[1..] + tail;
  }

  /** A single piece contributes its number when it parses, and nothing otherwise. */
  lemma AcceptedOne(p: string)
    ensures Accepted([p]) == if ParseU32(p).Some? then [ParseU32(p).value] else []
  {
    assert [p][1..] == [];
  }

  lemma {:induction false} AcceptedAppend(a: seq<string>, b: seq<string>)
    ensures Accepted(a + b) == Accepted(a) + Accepted(b)
  {
    if a == [] {
      assert a + b == b;
    } else {
      assert (a + b)[0] == a[0];
      assert (a + b)[1..] == a[1..] + b;
      AcceptedAppend(a[1..], b);
      var head := match ParseU32(a[0]) case Some(v) => [v] case None => [];
      calc {
        Accepted(a + b);
        head + Accepted(a[1..] + b);
        head + (Accepted(a[1..]) + Accepted(b));
        (head + Accepted(a[1..])) + Accepted(b);
        Accepted(a) + Accepted(b);
      }
    }
  }

  /** The decimal rendering reads back as the same number. */
  lemma {:induction false} DigitsValueOfShow(n: nat)
    ensures DigitsValue(Show(n)) == n
  {
    var digit := ['0' + (n % 10) as char];
    if n >= 10 {
      DigitsValueOfShow(n / 10);
      assert (Show(n / 10) + digit)[..|Show(n / 10) + digit| - 1] == Show(n / 10);
    }
  }

  /** A number written in decimal parses back exactly when it fits in 32 bits. */
  lemma ParseU32OfShow(n: nat)
    ensures ParseU32(Show(n)) == if n <= U32_MAX then Some(n as u32) else None
    ensures n <= U32_MAX ==> ParseU32("+" + Show(n)) == Some(n as u32)
  {
    DigitsValueOfShow(n);
    assert ("+" + Show(n))[1..] == Show(n);
  }

  /**
   * Every non-empty digit string, leading zeros included, parses to its value
   * when that is at most `U32_MAX`, and a leading `+` changes nothing.
   */
  lemma ParseU32OfDigits(s: string)
    requires s != [] && AllDigits(s)
    ensures ParseU32(s) == if DigitsValue(s) <= U32_MAX then Some(DigitsValue(s) as u32) else None
    ensures ParseU32("+" + s) == ParseU32(s)
  {
    var t := "+" + s;
    assert t[1..] == s;
  }

  /** The pieces that do not parse, such as `""`, `"+"`, `"-1"` or `"abc"`. */
  lemma ParseU32Rejects()
    ensures ParseU32("") == None && ParseU32("+") == None && ParseU32("-1") == None
    ensures ParseU32("abc") == None
  {
    assert !AllDigits("-1") by { assert !IsDigit("-1"[0]); }
    assert !AllDigits("abc") by { assert !IsDigit("abc"[0]); }
  }

  lemma DigitsHaveNoX(s: string)
    requires AllDigits(s)
    ensures 'x' !in s
  {
    assert !IsDigit('x');
  }

  /** `ParseSize` reads back the size written as `WxH`. */
  lemma ParseSizeOfRendered(w: u32, h: u32)
    ensures ParseSize(Show(w as nat) + "x" + Show(h as nat)) == Ok((w, h))
  {
    var a, b := Show(w as nat), Show(h as nat);
    DigitsHaveNoX(a);
    DigitsHaveNoX(b);
    SplitJoin([a, b], 'x');
    assert Join([a, b], 'x') == a + "x" + b;
    ParseU32OfShow(w as nat);
    ParseU32OfShow(h as nat);
    assert Accepted([a, b]) == [w, h] by {
      assert [a, b][1..] == [b];
      assert Accepted([b]) == [h];
    }
  }

  /** A piece that does not parse, in front of the size, is skipped. */
  lemma ParseSizeSkipsUnparsed(piece: string, raw: string)
    requires 'x' !in piece && ParseU32(piece).None?
    ensures ParseSize(piece + "x" + raw) == ParseSize(raw)
  {
    SplitAfterPiece(piece, 'x', raw);
    assert Accepted([piece] + Split(raw, 'x')) == Accepted(Split(raw, 'x')) by {
      AcceptedAppend([piece], Split(raw, 'x'));
    }
  }

  /** A piece that does not parse, between two others, is skipped. */
  lemma ParseSizeSkipsUnparsedBetween(before: string, piece: string, after: string)
    requires 'x' !in piece && ParseU32(piece).None?
    ensures ParseSize(before + "x" + piece + "x" + after) == ParseSize(before + "x" + after)
  {
    assert before + "x" + piece + "x" + after == before + ['x'] + (piece + ['x'] + after);
    SplitAround(before, 'x', piece + ['x'] + after);
    SplitAfterPiece(piece, 'x', after);
    SplitAround(before, 'x', after);
    var A, B := Split(before, 'x'), Split(after, 'x');
    AcceptedAppend(A, [piece] + B);
    AcceptedAppend([piece], B);
    AcceptedAppend(A, B);
  }

  /** Once two numbers are read, whatever follows is ignored. */
  lemma ParseSizeIgnoresTail(raw: string, tail: string)
    requires ParseSize(raw).Ok?
    ensures ParseSize(raw + "x" + tail) == ParseSize(raw)
  {
    SplitAround(raw, 'x', tail);
    AcceptedAppend(Split(raw, 'x'), Split(tail, 'x'));
  }

  lemma ParseSizeExampleSimple()
    ensures ParseSize("800x600") == Ok((800, 600))
  {
    assert Show(8) == "8" && Show(80) == "80" && Show(800) == "800";
    assert Show(6) == "6" && Show(60) == "60" && Show(600) == "600";
    ParseSizeOfRendered(800, 600);
    assert Show(800) + "x" + Show(600) == "800x600";
  }

  lemma ParseSizeExampleTail()
    ensures ParseSize("1x2x3") == Ok((1, 2))
  {
    assert Show(1) == "1" && Show(2) == "2";
    ParseSizeOfRendered(1, 2);
    assert Show(1) + "x" + Show(2) == "1x2";
    assert "1x2x3" == "1x2" + "x" + "3";
    ParseSizeIgnoresTail("1x2", "3");
  }

  lemma ParseSizeExampleTooFew()
    ensures ParseSize("800") == Err(MalformedSize)
    ensures ParseSize("") == Err(MalformedSize)
  {
    SplitWithoutSep("800", 'x');
    assert Accepted(["800"]) == Accepted(["800"][..1]);
    assert |Accepted(["800"])| <= 1;
    assert Split("", 'x') == [""];
  }

  /** A malformed size fails the command even without `--once`. */
  lemma MalformedSizeFailsWithoutOnce(html: string, size: string, output: string)
    requires ParseSize(size).Err?
    ensures GetAction(ArgMatches(Some(RenderMatches(Some(html), Some(size), Some(output), false))))
              == Err(MalformedSize)
  {
  }
}
