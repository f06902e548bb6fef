/**
  The command splitter of the command-line interface (debugger/src/cli/cli.c): it overwrites separators and quotes in
  the command with NUL characters and notes where the arguments start.
*/
module CliSplit {
  import opened FwkStatus

  const NUL: char := '\0'
  const QUOTE: char := '"'

  /** `strchr` finds a NUL in every string, so that it separates arguments too. */
  predicate IsWhite(c: char, whitespace: string) {
    c in whitespace || c == NUL
  }

  /** Length of the word that `s` starts with: up to the first separator. */
  function WordEnd(s: string, whitespace: string): (k: nat)
    ensures k <= |s|
  {
    if s == "" || IsWhite(s[0], whitespace) then 0 else 1 + WordEnd(s[1..], whitespace)
  }

  /** Position of the next quote, or the length. */
  function QuoteEnd(s: string): (k: nat)
    ensures k <= |s|
  {
    if s == "" || s[0] == QUOTE then 0 else 1 + QuoteEnd(s[1..])
  }

  function Prepend(done: seq<string>, rest: Option<seq<string>>): Option<seq<string>> {
    if rest.None? then None else Some(done + rest.value)
  }

  /** An argument between quotes; there is no empty argument. */
  function NonEmpty(s: string): seq<string> {
    if s == "" then [] else [s]
  }

  /**
    The arguments of a command: words up to a separator, and everything between a quote at the start of an argument and
    the next quote, which also ends it; none if a quote is not closed.
  */
  function Arguments(s: string, whitespace: string): Option<seq<string>>
    decreases |s|
  {
    if s == "" then
      Some([])
    else if IsWhite(s[0], whitespace) then
      Arguments(s[1..], whitespace)
    else if s[0] == QUOTE then
      var k := QuoteEnd(s[1..]);
      if k == |s| - 1 then None else Prepend(NonEmpty(s[1..k + 1]), Arguments(s[k + 2..], whitespace))
    else
      var k := WordEnd(s, whitespace);
      Prepend([s[..k]], Arguments(s[k..], whitespace))
  }

  /** A word ends at the first separator, whichever it is. */
  lemma {:induction false} WordEndIs(s: string, whitespace: string)
    ensures var k := WordEnd(s, whitespace);
      && (forall i :: 0 <= i < k ==> s[i] !in whitespace && s[i] != NUL)
      && (k < |s| ==> s[k] in whitespace || s[k] == NUL)
  {
    if s == "" || IsWhite(s[0], whitespace) {
    } else {
      WordEndIs(s[1..], whitespace);
    }
  }

  lemma {:induction false} QuoteEndIs(s: string)
    ensures var k := QuoteEnd(s); k < |s| ==> s[k] == QUOTE
  {
    if s == "" || s[0] == QUOTE {
    } else {
      QuoteEndIs(s[1..]);
    }
  }

  /** The argument stands between quotes in the command, at position `i`. */
  predicate QuotedAt(s: string, arg: string, i: nat) {
    i + |arg| + 2 <= |s| && s[i] == QUOTE && s[i + 1..i + 1 + |arg|] == arg && s[i + 1 + |arg|] == QUOTE
  }

  lemma QuotedLater(s: string, k: nat, arg: string, i: nat)
    requires k <= |s| && QuotedAt(s[k..], arg, i)
    ensures QuotedAt(s, arg, k + i)
  {
    assert s[k..][i + 1..i + 1 + |arg|] == s[k + i + 1..k + i + 1 + |arg|];
  }

  lemma ArgumentsUnfold(s: string, whitespace: string)
    requires s != ""
    ensures Arguments(s, whitespace) ==
      if IsWhite(s[0], whitespace) then Arguments(s[1..], whitespace)
      else if s[0] == QUOTE then
        var k := QuoteEnd(s[1..]);
        if k == |s| - 1 then None else Prepend(NonEmpty(s[1..k + 1]), Arguments(s[k + 2..], whitespace))
      else Prepend([s[..WordEnd(s, whitespace)]], Arguments(s[WordEnd(s, whitespace)..], whitespace))
  {
  }

  /** An argument that contains a separator stands between quotes in the command. */
  lemma {:induction false} SeparatorsAreQuoted(s: string, whitespace: string, j: nat, c: char) returns (i: nat)
    requires Arguments(s, whitespace).Some? && j < |Arguments(s, whitespace).value|
    requires c in Arguments(s, whitespace).value[j] && c in whitespace
    ensures QuotedAt(s, Arguments(s, whitespace).value[j], i)
    decreases |s|, 1
  {
    assert s != "";
    hide Arguments;
    ArgumentsUnfold(s, whitespace);
    if IsWhite(s[0], whitespace) {
      assert [] + Arguments(s[1..], whitespace).value == Arguments(s[1..], whitespace).value;
      i := SeparatorLater(s, 1, [], whitespace, j, c);
    } else if s[0] == QUOTE {
      var k := QuoteEnd(s[1..]);
      QuoteEndIs(s[1..]);
      if j < |NonEmpty(s[1..k + 1])| {
        i := 0;
      } else {
        i := SeparatorLater(s, k + 2, NonEmpty(s[1..k + 1]), whitespace, j, c);
      }
    } else {
      WordEndIs(s, whitespace);
      i := SeparatorLater(s, WordEnd(s, whitespace), [s[..WordEnd(s, whitespace)]], whitespace, j, c);
    }
  }

  /** The same for an argument that comes from the rest of the command. */
  lemma {:induction false} SeparatorLater(s: string, k: nat, done: seq<string>, whitespace: string, j: nat, c: char)
      returns (i: nat)
    requires 0 < k <= |s| && Arguments(s, whitespace) == Prepend(done, Arguments(s[k..], whitespace))
    requires Arguments(s, whitespace).Some? && |done| <= j < |Arguments(s, whitespace).value|
    requires c in Arguments(s, whitespace).value[j] && c in whitespace
    ensures QuotedAt(s, Arguments(s, whitespace).value[j], i)
    decreases |s|, 0
  {
    hide Arguments;
    i := SeparatorsAreQuoted(s[k..], whitespace, j - |done|, c);
    QuotedLater(s, k, Arguments(s, whitespace).value[j], i);
    i := k + i;
  }

  function Joined(arguments: seq<string>): string {
    if arguments == [] then "" else arguments[0] + Joined(arguments[1..])
  }

  /** The characters of a command that do not separate. */
  function Kept(s: string, whitespace: string): string {
    if s == "" then ""
    else (if s[0] in whitespace || s[0] == NUL then "" else [s[0]]) + Kept(s[1..], whitespace)
  }

  lemma {:induction false} KeptWord(s: string, whitespace: string, k: nat)
    requires k <= |s| && forall i :: 0 <= i < k ==> s[i] !in whitespace && s[i] != NUL
    ensures Kept(s, whitespace) == s[..k] + Kept(s[k..], whitespace)
    decreases k
  {
    if k == 0 {
      assert s[0..] == s;
    } else {
      KeptWord(s[1..], whitespace, k - 1);
      assert s[1..][k - 1..] == s[k..] && s[..k] == [s[0]] + s[1..][..k - 1];
    }
  }

  /** Without quotes the arguments are made of exactly the characters that do not separate, in order. */
  lemma {:induction false} NothingLost(s: string, whitespace: string)
    requires QUOTE !in s
    ensures Arguments(s, whitespace).Some?
    ensures Joined(Arguments(s, whitespace).value) == Kept(s, whitespace)
    decreases |s|
  {
    if s == "" {
    } else {
      hide Arguments;
      ArgumentsUnfold(s, whitespace);
      if IsWhite(s[0], whitespace) {
        NothingLost(s[1..], whitespace);
      } else {
        var k := WordEnd(s, whitespace);
        WordEndIs(s, whitespace);
        NothingLost(s[k..], whitespace);
        KeptWord(s, whitespace, k);
        var rest := Arguments(s[k..], whitespace).value;
        assert ([s[..k]] + rest)[1..] == rest;
      }
    }
  }

  datatype Mode = Between | InWord | InQuote

  /** The arguments when `done` and the part `current` of the next one have been read and `s` has not. */
  function Complete(done: seq<string>, current: string, s: string, mode: Mode, whitespace: string):
      Option<seq<string>>
  {
    match mode
    case Between => Prepend(done, Arguments(s, whitespace))
    case InWord =>
      var k := WordEnd(s, whitespace);
      Prepend(done + [current + s[..k]], Arguments(s[k..], whitespace))
    case InQuote =>
      var k := QuoteEnd(s);
      if k == |s| then None else Prepend(done + NonEmpty(current + s[..k]), Arguments(s[k + 1..], whitespace))
  }

  lemma PrependTwice(a: seq<string>, b: seq<string>, rest: Option<seq<string>>)
    ensures Prepend(a, Prepend(b, rest)) == Prepend(a + b, rest)
  {
    if rest.Some? {
      assert a + (b + rest.value) == (a + b) + rest.value;
    }
  }

  lemma ReadSeparator(done: seq<string>, current: string, s: string, mode: Mode, whitespace: string)
    requires s != "" && IsWhite(s[0], whitespace) && (mode == InWord || (mode == Between && current == ""))
    ensures Complete(done, current, s, mode, whitespace) ==
      Complete(if mode == InWord then done + [current] else done, "", s[1..], Between, whitespace)
  {
    assert current + s[..0] == current && s[0..] == s;
  }

  lemma ReadOpeningQuote(done: seq<string>, s: string, whitespace: string)
    requires s != "" && s[0] == QUOTE && !IsWhite(QUOTE, whitespace)
    ensures Complete(done, "", s, Between, whitespace) == Complete(done, "", s[1..], InQuote, whitespace)
  {
    var k := QuoteEnd(s[1..]);
    if k < |s| - 1 {
      assert s[1..][..k] == s[1..k + 1] && s[1..][k + 1..] == s[k + 2..] && "" + s[1..k + 1] == s[1..k + 1];
      PrependTwice(done, NonEmpty(s[1..k + 1]), Arguments(s[k + 2..], whitespace));
    }
  }

  lemma ReadClosingQuote(done: seq<string>, current: string, s: string, whitespace: string)
    requires s != "" && s[0] == QUOTE
    ensures Complete(done, current, s, InQuote, whitespace) ==
      Complete(done + NonEmpty(current), "", s[1..], Between, whitespace)
  {
    assert current + s[..0] == current;
  }

  lemma ReadFirst(done: seq<string>, s: string, whitespace: string)
    requires s != "" && !IsWhite(s[0], whitespace) && s[0] != QUOTE
    ensures Complete(done, "", s, Between, whitespace) == Complete(done, [s[0]], s[1..], InWord, whitespace)
  {
    var k := WordEnd(s, whitespace);
    assert s[..k] == [s[0]] + s[1..][..k - 1] && s[k..] == s[1..][k - 1..];
    PrependTwice(done, [s[..k]], Arguments(s[k..], whitespace));
  }

  lemma ReadNext(done: seq<string>, current: string, s: string, mode: Mode, whitespace: string)
    requires s != "" && ((mode == InQuote && s[0] != QUOTE) || (mode == InWord && !IsWhite(s[0], whitespace)))
    ensures Complete(done, current, s, mode, whitespace) == Complete(done, current + [s[0]], s[1..], mode, whitespace)
  {
    var k := if mode == InQuote then QuoteEnd(s) else WordEnd(s, whitespace);
    assert current + s[..k] == current + [s[0]] + s[1..][..k - 1];
    assert s[k..] == s[1..][k - 1..];
    if k < |s| {
      assert s[k + 1..] == s[1..][k..];
    }
  }

  /** `arg` stands in the buffer at `start` as a NUL-terminated string, or ends with the buffer. */
  ghost predicate IsArgument(buf: string, start: nat, arg: string) {
    && start + |arg| <= |buf| && arg != "" && NUL !in arg && buf[start..start + |arg|] == arg
    && (start + |arg| == |buf| || buf[start + |arg|] == NUL)
  }

  /** The complete arguments noted so far, all before position `i`. */
  ghost predicate Noted(args: seq<Option<nat>>, buf: string, i: nat, done: seq<string>) {
    && |done| < |args| && i <= |buf|
    && (forall j {:trigger args[j]} {:trigger done[j]} :: 0 <= j < |done| ==>
          args[j].Some? && args[j].value + |done[j]| < i && IsArgument(buf, args[j].value, done[j]))
  }

  /** The state of the scan at position `i`: the complete arguments, the one being read, and the end of the list. */
  ghost predicate Scanned(args: seq<Option<nat>>, buf: string, i: nat, done: seq<string>, current: string) {
    && Noted(args, buf, i, done)
    && (current == "" ==> args[|done|] == None)
    && (current != "" ==>
          && |done| + 1 < |args| && args[|done| + 1] == None && NUL !in current
          && |current| <= i && args[|done|] == Some(i - |current|) && buf[i - |current|..i] == current)
  }

  lemma NotedBlanked(args: seq<Option<nat>>, buf: string, i: nat, done: seq<string>)
    requires Noted(args, buf, i, done) && i < |buf|
    ensures Noted(args, buf[i := NUL], i + 1, done)
  {
    forall j | 0 <= j < |done|
      ensures args[j].Some? && args[j].value + |done[j]| < i && IsArgument(buf[i := NUL], args[j].value, done[j])
    {
      var start := args[j].value;
      assert buf[i := NUL][start..start + |done[j]|] == buf[start..start + |done[j]|];
    }
  }

  /** A separator or quote becomes NUL and ends the argument being read. */
  lemma Blanked(args: seq<Option<nat>>, buf: string, i: nat, done: seq<string>, current: string)
    requires Scanned(args, buf, i, done, current) && i < |buf|
    ensures Scanned(args, buf[i := NUL], i + 1, done + NonEmpty(current), "")
  {
    NotedBlanked(args, buf, i, done);
    if current != "" {
      var next, start := buf[i := NUL], i - |current|;
      assert next[start..i] == buf[start..i];
      assert IsArgument(next, start, current);
    }
  }

  /** A character after separators starts an argument, if the list has room for it and its end. */
  lemma Started(args: seq<Option<nat>>, buf: string, i: nat, done: seq<string>)
    requires Scanned(args, buf, i, done, "") && i < |buf| && buf[i] != NUL && |done| + 1 < |args|
    ensures Scanned(args[|done| := Some(i)][|done| + 1 := None], buf, i + 1, done, [buf[i]])
  {
    assert buf[i..i + 1] == [buf[i]];
  }

  lemma Continued(args: seq<Option<nat>>, buf: string, i: nat, done: seq<string>, current: string)
    requires Scanned(args, buf, i, done, current) && current != "" && i < |buf| && buf[i] != NUL
    ensures Scanned(args, buf, i + 1, done, current + [buf[i]])
  {
    assert buf[i - |current|..i + 1] == buf[i - |current|..i] + [buf[i]];
  }

  /** An argument that has been started is an argument of the command, if the command has any. */
  lemma CompleteCounts(done: seq<string>, current: string, s: string, mode: Mode, whitespace: string)
    requires Complete(done, current, s, mode, whitespace).Some? && current != "" && mode != Between
    ensures |Complete(done, current, s, mode, whitespace).value| > |done|
  {
  }

  /** The list holds exactly the given arguments. */
  ghost predicate Lists(args: seq<Option<nat>>, buf: string, arguments: seq<string>) {
    && |arguments| < |args| && args[|arguments|] == None
    && (forall j :: 0 <= j < |arguments| ==> args[j].Some? && IsArgument(buf, args[j].value, arguments[j]))
  }

  lemma Finished(args: seq<Option<nat>>, buf: string, done: seq<string>, current: string)
    requires Scanned(args, buf, |buf|, done, current)
    ensures Lists(args, buf, done + NonEmpty(current))
  {
    if current != "" {
      assert IsArgument(buf, |buf| - |current|, current);
    }
  }

  function ModeOf(inQuote: bool, afterSpace: bool): Mode {
    if inQuote then InQuote else if afterSpace then Between else InWord
  }

  /** The scan of `s` has reached `index`: what the list, the buffer and the two flags say agrees with the arguments. */
  ghost predicate Scanning(args: seq<Option<nat>>, buf: string, s: string, index: nat, done: seq<string>,
      current: string,
      inQuote: bool, afterSpace: bool, whitespace: string)
  {
    && index <= |buf| == |s| && buf[index..] == s[index..] && NUL !in s
    && Scanned(args, buf, index, done, current)
    && (afterSpace <==> current == "")
    && Complete(done, current, s[index..], ModeOf(inQuote, afterSpace), whitespace) == Arguments(s, whitespace)
  }

  lemma ScanningStarts(args: seq<Option<nat>>, s: string, whitespace: string)
    requires args != [] && args[0] == None && NUL !in s
    ensures Scanning(args, s, s, 0, [], "", false, true, whitespace)
  {
    assert s[0..] == s;
    var all := Arguments(s, whitespace);
    if all.Some? {
      assert [] + all.value == all.value;
    }
  }

  lemma SeparatorScanned(args: seq<Option<nat>>, buf: string, s: string, index: nat, done: seq<string>, current: string,
      afterSpace: bool, whitespace: string)
    requires Scanning(args, buf, s, index, done, current, false, afterSpace, whitespace)
    requires index < |s| && IsWhite(buf[index], whitespace)
    ensures Scanning(args, buf[index := NUL], s, index + 1, done + NonEmpty(current), "", false, true, whitespace)
  {
    assert s[index..][1..] == s[index + 1..] && s[index..][0] == buf[index..][0] == buf[index];
    ReadSeparator(done, current, s[index..], ModeOf(false, afterSpace), whitespace);
    Blanked(args, buf, index, done, current);
    assert buf[index := NUL][index + 1..] == buf[index..][1..];
    assert done + [] == done;
  }

  lemma QuoteScanned(args: seq<Option<nat>>, buf: string, s: string, index: nat, done: seq<string>, current: string,
      inQuote: bool, afterSpace: bool, whitespace: string)
    requires Scanning(args, buf, s, index, done, current, inQuote, afterSpace, whitespace)
    requires index < |s| && buf[index] == QUOTE && (inQuote || (afterSpace && !IsWhite(QUOTE, whitespace)))
    ensures Scanning(args, buf[index := NUL], s, index + 1, done + NonEmpty(current), "", !inQuote, true, whitespace)
  {
    assert s[index..][1..] == s[index + 1..] && s[index..][0] == buf[index..][0] == buf[index];
    if inQuote {
      ReadClosingQuote(done, current, s[index..], whitespace);
    } else {
      ReadOpeningQuote(done, s[index..], whitespace);
      assert done + [] == done;
    }
    Blanked(args, buf, index, done, current);
    assert buf[index := NUL][index + 1..] == buf[index..][1..];
  }

  /** An ordinary character: not a separator outside quotes, and not a quote that opens or closes an argument. */
  predicate Ordinary(c: char, inQuote: bool, afterSpace: bool, whitespace: string) {
    if c == QUOTE then
      !inQuote && !afterSpace && !IsWhite(c, whitespace)
    else
      inQuote || !IsWhite(c, whitespace)
  }

  lemma OrdinaryRead(s: string, index: nat, done: seq<string>, current: string, inQuote: bool, whitespace: string)
    requires index < |s| && Ordinary(s[index], inQuote, current == "", whitespace)
    ensures Complete(done, current, s[index..], ModeOf(inQuote, current == ""), whitespace) ==
      Complete(done, current + [s[index]], s[index + 1..], ModeOf(inQuote, false), whitespace)
  {
    assert s[index..][1..] == s[index + 1..] && s[index..][0] == s[index];
    if !inQuote && current == "" {
      ReadFirst(done, s[index..], whitespace);
      assert "" + [s[index]] == [s[index]];
    } else {
      ReadNext(done, current, s[index..], ModeOf(inQuote, current == ""), whitespace);
    }
  }

  lemma FirstScanned(args: seq<Option<nat>>, buf: string, s: string, index: nat, done: seq<string>,
      inQuote: bool, whitespace: string)
    requires Scanning(args, buf, s, index, done, "", inQuote, true, whitespace)
    requires index < |s| && Ordinary(buf[index], inQuote, true, whitespace)
    ensures Arguments(s, whitespace).Some? ==> |Arguments(s, whitespace).value| > |done|
    ensures |done| + 1 < |args| ==>
      Scanning(args[|done| := Some(index)][|done| + 1 := None], buf, s, index + 1, done, [buf[index]], inQuote, false,
               whitespace)
  {
    assert buf[index] == buf[index..][0] == s[index];
    assert buf[index + 1..] == buf[index..][1..] && s[index..][1..] == s[index + 1..];
    OrdinaryRead(s, index, done, "", inQuote, whitespace);
    assert "" + [s[index]] == [s[index]];
    if Arguments(s, whitespace).Some? {
      CompleteCounts(done, [s[index]], s[index + 1..], ModeOf(inQuote, false), whitespace);
    }
    if |done| + 1 < |args| {
      Started(args, buf, index, done);
    }
  }

  lemma NextScanned(args: seq<Option<nat>>, buf: string, s: string, index: nat, done: seq<string>, current: string,
      inQuote: bool, whitespace: string)
    requires Scanning(args, buf, s, index, done, current, inQuote, false, whitespace)
    requires index < |s| && Ordinary(buf[index], inQuote, false, whitespace)
    ensures Scanning(args, buf, s, index + 1, done, current + [buf[index]], inQuote, false, whitespace)
  {
    assert buf[index] == buf[index..][0] == s[index];
    assert buf[index + 1..] == buf[index..][1..] && s[index..][1..] == s[index + 1..];
    OrdinaryRead(s, index, done, current, inQuote, whitespace);
    Continued(args, buf, index, done, current);
  }

  lemma ScanningEnds(args: seq<Option<nat>>, buf: string, s: string, done: seq<string>, current: string,
      inQuote: bool, afterSpace: bool, whitespace: string)
    requires Scanning(args, buf, s, |s|, done, current, inQuote, afterSpace, whitespace)
    ensures Arguments(s, whitespace) == if inQuote then None else Some(done + NonEmpty(current))
    ensures Lists(args, buf, done + NonEmpty(current))
  {
    Finished(args, buf, done, current);
    assert s[|s|..] == "" && current + "" == current;
    assert done + [] == done && (done + [current]) + [] == done + [current];
  }

  /** Overwrites one character of the command. */
  method Blank(command: array<char>, length: nat, index: nat)
    requires index < length <= command.Length
    modifies command
    ensures command[..length] == old(command[..length])[index := NUL]
  {
    command[index] := NUL;
  }

  /**
    `cli_split`: it succeeds exactly when the command has arguments that fit the list with its end, and then the list
    holds them in order.
  */
  method Split(argbuf: array<Option<nat>>, command: array<char>, length: nat, whitespace: string) returns (status: int)
    requires length <= command.Length && NUL !in command[..length]
    modifies argbuf, command
    ensures var arguments := Arguments(old(command[..length]), whitespace);
      && (status == SUCCESS <==> arguments.Some? && |arguments.value| < argbuf.Length)
      && (status == SUCCESS ==> Lists(argbuf[..], command[..length], arguments.value))
      && (status == E_PARAM ==> arguments.None? || argbuf.Length == 0)
    ensures status == SUCCESS || status == E_PARAM || status == E_NOMEM
  {
    hide Arguments, Complete, Scanned, Noted;
    if argbuf.Length == 0 {
      return E_PARAM;
    }
    argbuf[0] := None;
    ghost var s := command[..length];
    ghost var done: seq<string>, current: string := [], "";
    var count, inQuote, afterSpace := 0, false, true;
    ScanningStarts(argbuf[..], s, whitespace);
    for index := 0 to length
      invariant Scanning(argbuf[..], command[..length], s, index, done, current, inQuote, afterSpace, whitespace)
      invariant count == |done| + if afterSpace then 0 else 1
    {
      var c := command[index];
      ghost var args, buf := argbuf[..], command[..length];
      if IsWhite(c, whitespace) && !inQuote {
        SeparatorScanned(args, buf, s, index, done, current, afterSpace, whitespace);
        Blank(command, length, index);
        done, current, afterSpace := done + NonEmpty(current), "", true;
      } else if c == QUOTE && (inQuote || afterSpace) {
        QuoteScanned(args, buf, s, index, done, current, inQuote, afterSpace, whitespace);
        Blank(command, length, index);
        done, current, inQuote, afterSpace := done + NonEmpty(current), "", !inQuote, true;
      } else if afterSpace {
        FirstScanned(args, buf, s, index, done, inQuote, whitespace);
        if count + 1 >= argbuf.Length {
          return E_NOMEM;
        }
        argbuf[count] := Some(index);
        argbuf[count + 1] := None;
        assert argbuf[..] == args[count := Some(index)][count + 1 := None];
        count, current, afterSpace := count + 1, [c], false;
      } else {
        NextScanned(args, buf, s, index, done, current, inQuote, whitespace);
        current := current + [c];
      }
    }
    ScanningEnds(argbuf[..], command[..length], s, done, current, inQuote, afterSpace, whitespace);
    status := if inQuote then E_PARAM else SUCCESS;
  }
}
