/**
 * The `quoted` helper of appinst/win32.py and the argument string that
 * `_install_shortcut` builds from it.
 *
 * `quoted` strips every leading and trailing double quote and wraps the rest
 * in one pair of quotes exactly when it contains a space. The words of the
 * resulting argument string are read back by `Words`, a reference reading of
 * a command line (spaces separate words outside double quotes, the quote
 * characters themselves are dropped), which is what the quoting is for.
 */
module Quoting {
  import opened Wrappers
  import opened Sequences

  const Quote: char := '"'

  predicate AllQuotes(s: string)
  {
    forall i :: 0 <= i < |s| ==> s[i] == Quote
  }

  /** No quote at either end: what `strip('"')` leaves behind. */
  predicate Unwrapped(s: string)
  {
    s == [] || (s[0] != Quote && s[|s| - 1] != Quote)
  }

  /** `s` without its leading quotes. */
  function DropLeadingQuotes(s: string): (r: string)
    ensures |r| <= |s| && r == s[|s| - |r|..]
    ensures AllQuotes(s[..|s| - |r|])
    ensures r == [] || r[0] != Quote
  {
    if s != [] && s[0] == Quote then
      var r := DropLeadingQuotes(s[1..]);
      DropLeadingStep(s, r);
      r
    else s
  }

  /** Dropping one more leading quote keeps `r` a suffix with only quotes before it. */
  lemma DropLeadingStep(s: string, r: string)
    requires s != [] && s[0] == Quote
    requires |r| <= |s| - 1 && r == s[1..][|s| - 1 - |r|..] && AllQuotes(s[1..][..|s| - 1 - |r|])
    ensures r == s[|s| - |r|..] && AllQuotes(s[..|s| - |r|])
  {
    assert s[..|s| - |r|] == [Quote] + s[1..][..|s| - 1 - |r|];
  }

  /** `s` without its trailing quotes. */
  function DropTrailingQuotes(s: string): (r: string)
    ensures |r| <= |s| && r == s[..|r|]
    ensures AllQuotes(s[|r|..])
    ensures r == [] || r[|r| - 1] != Quote
  {
    if s != [] && s[|s| - 1] == Quote then
      var r := DropTrailingQuotes(s[..|s| - 1]);
      assert s[|r|..] == s[..|s| - 1][|r|..] + [Quote];
      r
    else s
  }

  /** Python's `s.strip('"')`: a middle slice of `s`, quotes on both sides cut away. */
  function Strip(s: string): (r: string)
    ensures |r| <= |s| && Unwrapped(r)
  {
    var t := DropLeadingQuotes(s);
    var r := DropTrailingQuotes(t);
    assert r == [] || r[0] == t[0];
    r
  }

  /** What `strip('"')` keeps is a middle slice of `s` with only quotes on either side. */
  lemma StripSlice(s: string) returns (i: nat)
    ensures i + |Strip(s)| <= |s| && Strip(s) == s[i..i + |Strip(s)|]
    ensures AllQuotes(s[..i]) && AllQuotes(s[i + |Strip(s)|..])
  {
    var t := DropLeadingQuotes(s);
    var r := DropTrailingQuotes(t);
    assert Strip(s) == r;
    i := |s| - |t|;
    assert s[i..] == t;
    SliceOfSuffix(s, i, |r|);
  }

  lemma {:induction false} DropLeadingOver(q: string, t: string)
    requires AllQuotes(q) && (t == [] || t[0] != Quote)
    ensures DropLeadingQuotes(q + t) == t
    decreases |q|
  {
    if q != [] {
      assert (q + t)[1..] == q[1..] + t;
      DropLeadingOver(q[1..], t);
    }
  }

  lemma {:induction false} DropTrailingOver(t: string, q: string)
    requires AllQuotes(q) && (t == [] || t[|t| - 1] != Quote)
    ensures DropTrailingQuotes(t + q) == t
    decreases |q|
  {
    if q != [] {
      assert (t + q)[..|t + q| - 1] == t + q[..|q| - 1];
      DropTrailingOver(t, q[..|q| - 1]);
    }
  }

  /** The stripped text is determined by the quotes around it: `strip` cuts exactly those. */
  lemma StripExact(q1: string, t: string, q2: string)
    requires AllQuotes(q1) && AllQuotes(q2) && Unwrapped(t)
    ensures Strip(q1 + t + q2) == t
  {
    if t == [] {
      assert q1 + t + q2 == q1 + q2 + [];
      DropLeadingOver(q1 + q2, []);
      assert DropLeadingQuotes(q1 + t + q2) == [];
    } else {
      assert q1 + t + q2 == q1 + (t + q2);
      DropLeadingOver(q1, t + q2);
      DropTrailingOver(t, q2);
    }
  }

  /** Python's `quoted(s)`. */
  function Quoted(s: string): string
  {
    var t := Strip(s);
    if ' ' in t then [Quote] + t + [Quote] else t
  }

  /** Stripping a text with no quote at either end gives it back. */
  lemma StripUnwrapped(t: string)
    requires Unwrapped(t)
    ensures Strip(t) == t
  {
    StripExact([], t, []);
    assert [] + t + [] == t;
  }

  /** Stripping a quoted text with no quote at either end gives the text. */
  lemma StripWrapped(t: string)
    requires Unwrapped(t)
    ensures Strip([Quote] + t + [Quote]) == t
  {
    StripExact([Quote], t, [Quote]);
  }

  /**
   * Stripping undoes quoting, and the quotes are there exactly when the
   * stripped text holds a space.
   */
  lemma QuotedStrip(s: string)
    ensures Strip(Quoted(s)) == Strip(s)
    ensures ' ' in Strip(s) <==> |Quoted(s)| >= 2 && Quoted(s)[0] == Quote
  {
    var t := Strip(s);
    if ' ' in t {
      StripWrapped(t);
    } else {
      StripUnwrapped(t);
    }
  }

  /** Quoting twice is quoting once: no string ever gets a second pair of quotes. */
  lemma QuotedIdempotent(s: string)
    ensures Quoted(Quoted(s)) == Quoted(s)
  {
    QuotedStrip(s);
  }

  /** A string without spaces and without surrounding quotes passes through unchanged. */
  lemma QuotedLeavesPlainWords(s: string)
    requires ' ' !in s && Unwrapped(s)
    ensures Quoted(s) == s
  {
    StripUnwrapped(s);
  }

  /** The argument string of a shortcut: `' '.join(quoted(arg) for arg in args)`. */
  function ArgString(args: seq<string>): string
  {
    if args == [] then ""
    else if |args| == 1 then Quoted(args[0])
    else Quoted(args[0]) + " " + ArgString(args[1..])
  }

  /** `strip('"')` of every argument: what reading the argument string gives back. */
  function StripEach(args: seq<string>): seq<string>
  {
    if args == [] then [] else [Strip(args[0])] + StripEach(args[1..])
  }

  /**
   * Reads one word of a command line from its start: characters up to the
   * first space that is outside double quotes, quote characters dropped.
   * Also returns what follows that space, or None when the line ended.
   */
  function NextWord(s: string, inQuotes: bool): (r: (string, Option<string>))
    ensures r.1.Some? ==> |r.1.value| < |s|
    decreases |s|
  {
    if s == [] then ("", None)
    else if s[0] == Quote then NextWord(s[1..], !inQuotes)
    else if s[0] == ' ' && !inQuotes then ("", Some(s[1..]))
    else
      var (w, rest) := NextWord(s[1..], inQuotes);
      ([s[0]] + w, rest)
  }

  /**
   * The words of a command line: runs of spaces outside double quotes
   * separate words, quote characters group and are dropped (the Windows
   * convention, without its backslash escapes and tabs).
   */
  function Words(s: string): seq<string>
    decreases |s|
  {
    if s == [] then []
    else if s[0] == ' ' then Words(s[1..])
    else
      var (w, rest) := NextWord(s, false);
      [w] + (if rest.None? then [] else Words(rest.value))
  }

  /** Text without quotes is copied into the word, spaces too while inside quotes. */
  lemma {:induction false} NextWordCopies(b: string, s: string, inQuotes: bool)
    requires Quote !in b
    requires !inQuotes ==> ' ' !in b
    ensures NextWord(b + s, inQuotes) == (b + NextWord(s, inQuotes).0, NextWord(s, inQuotes).1)
    decreases |b|
  {
    if b == [] {
      assert b + s == s && b + NextWord(s, inQuotes).0 == NextWord(s, inQuotes).0;
    } else {
      var c := b[0];
      assert c in b;
      assert (b + s)[0] == c;
      assert (b + s)[1..] == b[1..] + s;
      NextWordCopies(b[1..], s, inQuotes);
      var (w, rest) := NextWord(s, inQuotes);
      assert NextWord(b[1..] + s, inQuotes) == (b[1..] + w, rest);
      assert NextWord(b + s, inQuotes) == ([c] + (b[1..] + w), rest);
      assert [c] + (b[1..] + w) == b + w;
    }
  }

  /** The word that follows an unquoted space, or the end of the line. */
  lemma NextWordAtBreak(tail: string, inQuotes: bool)
    requires tail == [] || (tail[0] == ' ' && !inQuotes)
    ensures NextWord(tail, inQuotes) == ("", if tail == [] then None else Some(tail[1..]))
  {
  }

  /** A quoted word is read back without its quotes. */
  lemma NextWordOfWrapped(t: string, tail: string)
    requires Quote !in t
    requires tail == [] || tail[0] == ' '
    ensures NextWord([Quote] + t + [Quote] + tail, false)
            == (t, if tail == [] then None else Some(tail[1..]))
  {
    var x := [Quote] + t + [Quote] + tail;
    var y := [Quote] + tail;
    assert x == [Quote] + (t + y);
    assert x[0] == Quote && x[1..] == t + y;
    NextWordCopies(t, y, true);
    assert y[0] == Quote && y[1..] == tail;
    NextWordAtBreak(tail, false);
    assert t + "" == t;
  }

  /** Reading a quoted argument back yields the argument without its quotes. */
  lemma NextWordOfQuoted(a: string, tail: string)
    requires Strip(a) != [] && Quote !in Strip(a)
    requires tail == [] || tail[0] == ' '
    ensures NextWord(Quoted(a) + tail, false)
            == (Strip(a), if tail == [] then None else Some(tail[1..]))
  {
    var t := Strip(a);
    QuotedStrip(a);
    if ' ' in t {
      NextWordOfWrapped(t, tail);
    } else {
      NextWordCopies(t, tail, false);
      NextWordAtBreak(tail, false);
      assert t + "" == t;
    }
  }

  /** A non-empty stripped argument is quoted into a word that does not start with a space. */
  lemma QuotedStartsWord(a: string)
    requires Strip(a) != []
    ensures Quoted(a) != [] && Quoted(a)[0] != ' '
  {
    var t := Strip(a);
    if ' ' !in t {
      assert Quoted(a) == t && t[0] in t;
    }
  }

  /** A line that does not start with a space begins with the word NextWord reads. */
  lemma WordsAtWord(x: string)
    requires x != [] && x[0] != ' '
    ensures Words(x) == [NextWord(x, false).0]
                        + (if NextWord(x, false).1.None? then [] else Words(NextWord(x, false).1.value))
  {
  }

  /** One quoted argument at the head of a command line becomes its first word. */
  lemma WordsOfQuotedHead(a: string, tail: string)
    requires Strip(a) != [] && Quote !in Strip(a)
    requires tail == [] || tail[0] == ' '
    ensures Words(Quoted(a) + tail) == [Strip(a)] + (if tail == [] then [] else Words(tail[1..]))
  {
    var x := Quoted(a) + tail;
    QuotedStartsWord(a);
    assert x[0] == Quoted(a)[0];
    NextWordOfQuoted(a, tail);
    WordsAtWord(x);
  }

  /** Reading the argument string of `args` after its first argument has been read. */
  lemma WordsOfArgStringStep(args: seq<string>)
    requires |args| > 1
    requires Strip(args[0]) != [] && Quote !in Strip(args[0])
    requires Words(ArgString(args[1..])) == StripEach(args[1..])
    ensures Words(ArgString(args)) == StripEach(args)
  {
    var a := args[0];
    var rest := ArgString(args[1..]);
    var tail := " " + rest;
    calc {
      Words(ArgString(args));
      { ArgStringCons(args); }
      Words(Quoted(a) + tail);
      { WordsOfQuotedHead(a, tail); assert tail[1..] == rest; }
      [Strip(a)] + Words(rest);
      [Strip(a)] + StripEach(args[1..]);
    }
  }

  /** The argument string of two or more arguments: the first quoted, a space, the rest. */
  lemma ArgStringCons(args: seq<string>)
    requires |args| > 1
    ensures ArgString(args) == Quoted(args[0]) + (" " + ArgString(args[1..]))
  {
    Assoc(Quoted(args[0]), " ", ArgString(args[1..]));
  }

  /**
   * Round trip: reading the words of the argument string gives back every
   * argument, stripped of its own quotes, as long as no argument is empty
   * once stripped and none holds a quote inside.
   */
  lemma {:induction false} WordsOfArgString(args: seq<string>)
    requires forall i :: 0 <= i < |args| ==> Strip(args[i]) != [] && Quote !in Strip(args[i])
    ensures Words(ArgString(args)) == StripEach(args)
  {
    if |args| == 1 {
      WordsOfArgStringOne(args);
    } else if |args| > 1 {
      var rest := args[1..];
      assert forall i :: 0 <= i < |rest| ==> rest[i] == args[i + 1];
      WordsOfArgString(rest);
      WordsOfArgStringStep(args);
    }
  }

  /** A quoted argument alone reads back as one word: the argument without its quotes. */
  lemma WordsOfQuoted(a: string)
    requires Strip(a) != [] && Quote !in Strip(a)
    ensures Words(Quoted(a)) == [Strip(a)]
  {
    WordsOfQuotedHead(a, "");
    assert Quoted(a) + "" == Quoted(a);
  }

  /** A single argument reads back as itself, stripped of its quotes. */
  lemma WordsOfArgStringOne(args: seq<string>)
    requires |args| == 1
    requires Strip(args[0]) != [] && Quote !in Strip(args[0])
    ensures Words(ArgString(args)) == StripEach(args)
  {
    WordsOfQuoted(args[0]);
    assert args[1..] == [];
  }
}
