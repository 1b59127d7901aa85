/**
 * `ToCmdArgs`, the rule both the patching wrapper and the patcher updater use
 * to turn an argument list into one command-line string: an argument without
 * a space is written as it is, an argument with a space is written between
 * double quotes with every inner double quote doubled, and the results are
 * joined with single spaces.
 *
 * The partner of the rule is `ParseCmdLine`, a reader for such lines: spaces
 * outside double quotes separate arguments, and an argument that contains a
 * space is unwrapped and its doubled quotes halved.  The Windows C runtime's
 * backslash rules are not part of this reader.
 */
module CmdArgs {
  import opened Wrappers

  /** `s.Replace("\"", "\"\"")` */
  function DoubleQuotes(s: string): string
  {
    if s == [] then [] else (if s[0] == '"' then "\"\"" else [s[0]]) + DoubleQuotes(s[1..])
  }

  /** How `ToCmdArgs` writes one argument. */
  function Quote(arg: string): string
  {
    if ' ' !in arg then arg else "\"" + DoubleQuotes(arg) + "\""
  }

  /** `string.Join(" ", parts)` */
  function JoinSpaces(parts: seq<string>): string
  {
    if parts == [] then ""
    else if |parts| == 1 then parts[0]
    else parts[0] + " " + JoinSpaces(parts[1..])
  }

  /** The command line `ToCmdArgs` builds from `args`. */
  function CmdLine(args: seq<string>): string
  {
    JoinSpaces(seq(|args|, i requires 0 <= i < |args| => Quote(args[i])))
  }

  /**
   * `ToCmdArgs` as written: a loop that fills a list with the written form of
   * every argument, followed by one join.
   */
  method ToCmdArgs(args: seq<string>) returns (line: string)
    ensures line == CmdLine(args)
  {
    var result: seq<string> := [];
    for i := 0 to |args|
      invariant |result| == i
      invariant forall k :: 0 <= k < i ==> result[k] == Quote(args[k])
    {
      var arg := args[i];
      if ' ' !in arg {
        result := result + [arg];
      } else {
        result := result + ["\"" + DoubleQuotes(arg) + "\""];
      }
    }
    assert result == seq(|args|, i requires 0 <= i < |args| => Quote(args[i]));
    line := JoinSpaces(result);
  }

  // ---------------------------------------------------------------------------
  // Reading a command line back

  /**
   * Splits `s` at every space outside double quotes; `cur` is the argument
   * read so far and `inQuotes` whether the scan is inside quotes.
   */
  function Tokens(s: string, inQuotes: bool, cur: string): seq<string>
    decreases |s|
  {
    if s == [] then [cur]
    else if s[0] == ' ' && !inQuotes then [cur] + Tokens(s[1..], false, "")
    else Tokens(s[1..], if s[0] == '"' then !inQuotes else inQuotes, cur + [s[0]])
  }

  /** `"x""y"` becomes `x"y`: the inverse of `DoubleQuotes`. */
  function HalveQuotes(s: string): string
  {
    if s == [] then []
    else if |s| >= 2 && s[0] == '"' && s[1] == '"' then "\"" + HalveQuotes(s[2..])
    else [s[0]] + HalveQuotes(s[1..])
  }

  /** Undoes `Quote` on one token. */
  function Unquote(token: string): string
  {
    if ' ' in token && |token| >= 2 then HalveQuotes(token[1..|token| - 1]) else token
  }

  /** The argument list a command line stands for. */
  function ParseCmdLine(line: string): seq<string>
  {
    var tokens := Tokens(line, false, "");
    seq(|tokens|, i requires 0 <= i < |tokens| => Unquote(tokens[i]))
  }

  /**
   * The quote state after scanning `t` from state `q`, or `None` when the
   * scan meets a space outside quotes (where `Tokens` would split).
   */
  function EndState(t: string, q: bool): Option<bool>
    decreases |t|
  {
    if t == [] then Some(q)
    else if t[0] == ' ' && !q then None
    else EndState(t[1..], if t[0] == '"' then !q else q)
  }

  function QuoteCount(s: string): nat
  {
    if s == [] then 0 else (if s[0] == '"' then 1 else 0) + QuoteCount(s[1..])
  }

  /** Quotes count additively over concatenation. */
  lemma {:induction false} QuoteCountConcat(a: string, b: string)
    ensures QuoteCount(a + b) == QuoteCount(a) + QuoteCount(b)
  {
    if a != [] {
      assert (a + b)[0] == a[0] && (a + b)[1..] == a[1..] + b;
      QuoteCountConcat(a[1..], b);
    } else {
      assert a + b == b;
    }
  }

  lemma {:induction false} ScanThrough(t: string, rest: string, q: bool, cur: string)
    requires EndState(t, q).Some?
    ensures Tokens(t + rest, q, cur) == Tokens(rest, EndState(t, q).value, cur + t)
    decreases |t|
  {
    if t == [] {
      assert t + rest == rest;
      assert cur + t == cur;
    } else {
      var q' := if t[0] == '"' then !q else q;
      assert (t + rest)[0] == t[0];
      assert (t + rest)[1..] == t[1..] + rest;
      ScanThrough(t[1..], rest, q', cur + [t[0]]);
      assert cur + [t[0]] + t[1..] == cur + t;
    }
  }

  lemma {:induction false} EndStateConcat(x: string, y: string, q: bool)
    requires EndState(x, q).Some?
    ensures EndState(x + y, q) == EndState(y, EndState(x, q).value)
    decreases |x|
  {
    if x == [] {
      assert x + y == y;
    } else {
      assert (x + y)[0] == x[0];
      assert (x + y)[1..] == x[1..] + y;
      EndStateConcat(x[1..], y, if x[0] == '"' then !q else q);
    }
  }

  lemma {:induction false} DoubledStaysQuoted(a: string)
    ensures EndState(DoubleQuotes(a), true) == Some(true)
  {
    if a != [] {
      var head := if a[0] == '"' then "\"\"" else [a[0]];
      if a[0] == '"' {
        assert head[1..][1..] == [];
        assert EndState(head[1..], false) == EndState([], true);
      } else {
        assert head[1..] == [];
      }
      assert EndState(head, true) == Some(true);
      EndStateConcat(head, DoubleQuotes(a[1..]), true);
      DoubledStaysQuoted(a[1..]);
    }
  }

  lemma {:induction false} NoSpaceEndState(a: string, q: bool)
    requires ' ' !in a
    ensures EndState(a, q) == Some(if QuoteCount(a) % 2 == 0 then q else !q)
  {
    if a != [] {
      NoSpaceEndState(a[1..], if a[0] == '"' then !q else q);
    }
  }

  lemma {:induction false} DoubleQuotesKeepsSpaces(a: string)
    ensures (' ' in DoubleQuotes(a)) == (' ' in a)
  {
    if a != [] {
      DoubleQuotesKeepsSpaces(a[1..]);
      var head := if a[0] == '"' then "\"\"" else [a[0]];
      assert DoubleQuotes(a) == head + DoubleQuotes(a[1..]);
      assert a == [a[0]] + a[1..];
    }
  }

  lemma {:induction false} HalveDoubled(a: string)
    ensures HalveQuotes(DoubleQuotes(a)) == a
  {
    if a != [] {
      HalveDoubled(a[1..]);
      var d := DoubleQuotes(a);
      if a[0] == '"' {
        assert d[2..] == DoubleQuotes(a[1..]);
      } else {
        assert d[1..] == DoubleQuotes(a[1..]);
      }
      assert a == [a[0]] + a[1..];
    }
  }

  /** Quoting one argument can always be undone. */
  lemma UnquoteQuote(a: string)
    ensures Unquote(Quote(a)) == a
  {
    DoubleQuotesKeepsSpaces(a);
    if ' ' in a {
      var t := Quote(a);
      assert t[1..|t| - 1] == DoubleQuotes(a);
      HalveDoubled(a);
    }
  }

  /** A written argument never ends inside quotes unless it is a bare one with an odd number of quotes. */
  lemma QuoteIsClosed(a: string)
    requires ' ' in a || QuoteCount(a) % 2 == 0
    ensures EndState(Quote(a), false) == Some(false)
  {
    if ' ' in a {
      var d := DoubleQuotes(a);
      DoubledStaysQuoted(a);
      assert "\"" + d + "\"" == "\"" + (d + "\"");
      EndStateConcat(d, "\"", true);
    } else {
      NoSpaceEndState(a, false);
    }
  }

  lemma {:induction false} TokensOfJoin(parts: seq<string>)
    requires |parts| >= 1
    requires forall i :: 0 <= i < |parts| ==> EndState(parts[i], false) == Some(false)
    ensures Tokens(JoinSpaces(parts), false, "") == parts
  {
    if |parts| == 1 {
      ScanThrough(parts[0], "", false, "");
      assert parts[0] + "" == parts[0];
      assert "" + parts[0] == parts[0];
    } else {
      var rest := JoinSpaces(parts[1..]);
      assert parts[0] + " " + rest == parts[0] + (" " + rest);
      ScanThrough(parts[0], " " + rest, false, "");
      assert "" + parts[0] == parts[0];
      assert (" " + rest)[1..] == rest;
      TokensOfJoin(parts[1..]);
      assert parts == [parts[0]] + parts[1..];
    }
  }

  /**
   * Round trip: a non-empty argument list in which every argument either
   * contains a space or has an even number of double quotes is read back
   * exactly from the line `ToCmdArgs` builds.
   */
  lemma ParseCmdLineRoundTrip(args: seq<string>)
    requires |args| >= 1
    requires forall i :: 0 <= i < |args| ==> ' ' in args[i] || QuoteCount(args[i]) % 2 == 0
    ensures ParseCmdLine(CmdLine(args)) == args
  {
    var written := seq(|args|, i requires 0 <= i < |args| => Quote(args[i]));
    forall i | 0 <= i < |args| ensures EndState(written[i], false) == Some(false) {
      QuoteIsClosed(args[i]);
    }
    TokensOfJoin(written);
    forall i | 0 <= i < |args| ensures Unquote(written[i]) == args[i] {
      UnquoteQuote(args[i]);
    }
  }

  /**
   * A bare argument with a single double quote is written verbatim and
   * swallows the separator after it: two arguments read back as one.
   */
  lemma BareQuoteSwallowsSeparator()
    ensures CmdLine(["a\"b", "c"]) == "a\"b c"
    ensures |ParseCmdLine(CmdLine(["a\"b", "c"]))| == 1
  {
    assert ' ' !in "a\"b" && ' ' !in "c";
    var written := seq(2, i requires 0 <= i < 2 => Quote(["a\"b", "c"][i]));
    assert written == ["a\"b", "c"];
    assert JoinSpaces(written[1..]) == "c";
    var line := CmdLine(["a\"b", "c"]);
    assert line == "a\"b c";
    assert line[1..] == "\"b c" && line[2..] == "b c" && line[3..] == " c" && line[4..] == "c";
    assert "c"[1..] == [] && "a\"b " + ['c'] == "a\"b c";
    assert Tokens("c", true, "a\"b ") == ["a\"b c"];
    assert "a\"b" + [' '] == "a\"b ";
    assert Tokens(" c", true, "a\"b") == Tokens("c", true, "a\"b ");
    assert "a\"" + ['b'] == "a\"b";
    assert Tokens("b c", true, "a\"") == Tokens(" c", true, "a\"b");
    assert "a" + ['"'] == "a\"";
    assert Tokens("\"b c", false, "a") == Tokens("b c", true, "a\"");
    assert "" + ['a'] == "a";
    assert Tokens(line, false, "") == Tokens("\"b c", false, "a");
  }
}
