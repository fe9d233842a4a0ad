/** handle_mode: taking a MODE line apart into single mode changes.

    The caller hands over the tables that the tokenizer filled: `words[k]` is the k-th word ("" when
    there is none) and `rests[k]` the rest of the line from there. */
module ModeParse {
  import opened CStrings
  import opened Modes
  import Tokenizer

  /** The line with one trailing space cut off; all rests of a line end where the line ends. */
  function Chop(s: string): string {
    if s != "" && s[|s| - 1] == ' ' then s[..|s| - 1] else s
  }

  /** The tables of one line agree: a word is the beginning of its rest. */
  ghost predicate Coherent(words: seq<string>, rests: seq<string>) {
    && |words| == |rests| == Tokenizer.PDIWORDS
    && forall k :: 0 <= k < |words| ==> words[k] <= rests[k]
  }

  /** How many arguments there are from table entry `i` on: up to the first empty word, and none
      after one that starts with a colon. */
  function CountArgs(words: seq<string>, i: nat): (n: nat)
    requires |words| == Tokenizer.PDIWORDS
    ensures i + n <= Tokenizer.PDIWORDS || n == 0
    decreases Tokenizer.PDIWORDS - i
  {
    if i >= Tokenizer.PDIWORDS || words[i] == "" then 0
    else if words[i][0] == ':' then 1
    else 1 + CountArgs(words, i + 1)
  }

  lemma {:induction false} CountedNonempty(words: seq<string>, i: nat, k: nat)
    requires |words| == Tokenizer.PDIWORDS && k < CountArgs(words, i)
    ensures i + k < |words| && words[i + k] != ""
    decreases k
  {
    if k > 0 {
      CountedNonempty(words, i + 1, k - 1);
    }
  }

  /** STRIP_COLON: a last argument that starts with a colon runs to the end of the line. */
  function ArgText(words: seq<string>, rests: seq<string>, i: nat): string
    requires Coherent(words, rests) && i < |words| && words[i] != ""
  {
    assert words[i] <= rests[i];
    if words[i][0] == ':' then Chop(rests[i])[1..] else words[i]
  }

  function ArgTexts(words: seq<string>, rests: seq<string>, i: nat, n: nat): (a: seq<string>)
    requires Coherent(words, rests) && n <= CountArgs(words, i)
    ensures |a| == n
  {
    seq(n, k requires 0 <= k < n => CountedNonempty(words, i, k); ArgText(words, rests, i + k))
  }

  function CountModes(modes: string): nat {
    if modes == "" then 0
    else (if modes[0] != '+' && modes[0] != '-' then 1 else 0) + CountModes(modes[1..])
  }

  /** The single changes, from a mode word without its first sign. */
  function Dispatch(sv: Server, modes: string, sign: char, args: seq<string>, all: bool): seq<Change> {
    if modes == "" then []
    else if modes[0] == '+' || modes[0] == '-' then Dispatch(sv, modes[1..], modes[0], args, all)
    else if (all || HasArg(sv, sign, modes[0])) && args != [] then
      [Change(sign, modes[0], args[0])] + Dispatch(sv, modes[1..], sign, args[1..], all)
    else
      [Change(sign, modes[0], "")] + Dispatch(sv, modes[1..], sign, args, all)
  }

  /** What the whole line asks for; the mode word is entry offset + 1. */
  function Changes(sv: Server, words: seq<string>, rests: seq<string>, offset: nat): seq<Change>
    requires Coherent(words, rests) && offset + 2 < |words|
  {
    var w := words[offset + 1];
    var modes := if w != "" && w[0] == ':' then w[1..] else w;
    if modes == "" then [] else
    var n := CountArgs(words, offset + 2);
    Dispatch(sv, modes[1..], modes[0], ArgTexts(words, rests, offset + 2, n), n == CountModes(modes[1..]))
  }

  /** The arguments end where there is no word, at the end of the table, or with one that starts with a
      colon, whichever comes first. */
  lemma {:induction false} CountArgsMeans(words: seq<string>, i: nat)
    requires |words| == Tokenizer.PDIWORDS && i <= |words|
    ensures var n := CountArgs(words, i);
            && i + n <= |words| && (forall k :: i <= k < i + n ==> words[k] != "")
            && (forall k :: i <= k < i + n - 1 ==> words[k][0] != ':')
            && (i + n == |words| || words[i + n] == "" || (n > 0 && words[i + n - 1][0] == ':'))
    decreases |words| - i
  {
    if i < |words| && words[i] != "" && words[i][0] != ':' {
      CountArgsMeans(words, i + 1);
    }
  }

  /** A last argument behind a colon is the rest of the line, spaces and all, but for one at the end. */
  lemma TrailingArgument(words: seq<string>, rests: seq<string>, i: nat, text: string)
    requires Coherent(words, rests) && i < |words| && words[i] != "" && words[i][0] == ':'
    requires text == "" || text[|text| - 1] != ' '
    ensures rests[i] == ":" + text ==> ArgText(words, rests, i) == text
    ensures rests[i] == ":" + text + " " ==> ArgText(words, rests, i) == text
  {
    assert words[i] <= rests[i];
    if rests[i] == ":" + text {
      assert rests[i][1..] == text && Chop(rests[i]) == rests[i];
    } else if rests[i] == ":" + text + " " {
      assert Chop(rests[i]) == ":" + text && (":" + text)[1..] == text;
    }
  }

  lemma PlainArgument(words: seq<string>, rests: seq<string>, i: nat)
    requires Coherent(words, rests) && i < |words| && words[i] != "" && words[i][0] != ':'
    ensures ArgText(words, rests, i) == words[i]
  {
  }

  /** A colon before the modes, as some servers send it, makes no difference. */
  lemma ColonIgnored(sv: Server, words: seq<string>, rests: seq<string>, words': seq<string>, rests': seq<string>, offset: nat)
    requires Coherent(words, rests) && Coherent(words', rests') && offset + 2 < |words|
    requires words'[offset + 1] == ":" + words[offset + 1] && (words[offset + 1] == "" || words[offset + 1][0] != ':')
    requires words'[offset + 2..] == words[offset + 2..] && rests'[offset + 2..] == rests[offset + 2..]
    ensures Changes(sv, words', rests', offset) == Changes(sv, words, rests, offset)
  {
    assert words'[offset + 1][1..] == words[offset + 1];
    hide Dispatch, Coherent;
    CountArgsSame(words, words', offset + 2);
    var n := CountArgs(words, offset + 2);
    var A, B := ArgTexts(words, rests, offset + 2, n), ArgTexts(words', rests', offset + 2, n);
    forall k | 0 <= k < n ensures B[k] == A[k] {
      ArgTextsAt(words, rests, offset + 2, n, k);
      ArgTextsAt(words', rests', offset + 2, n, k);
      hide CountArgs, ArgTexts;
      assert words'[offset + 2 + k] == words'[offset + 2..][k] && words[offset + 2 + k] == words[offset + 2..][k];
      assert rests'[offset + 2 + k] == rests'[offset + 2..][k] && rests[offset + 2 + k] == rests[offset + 2..][k];
    }
    assert A == B;
  }

  lemma {:induction false} CountArgsSame(words: seq<string>, words': seq<string>, i: nat)
    requires |words| == |words'| == Tokenizer.PDIWORDS && i <= |words| && words'[i..] == words[i..]
    ensures CountArgs(words', i) == CountArgs(words, i)
    decreases |words| - i
  {
    if i < |words| {
      assert words'[i] == words'[i..][0] == words[i..][0] == words[i];
      assert words'[i + 1..] == words'[i..][1..] && words[i + 1..] == words[i..][1..];
      CountArgsSame(words, words', i + 1);
    }
  }

  // ---------------------------------------------------------------------
  // The method
  // ---------------------------------------------------------------------

  /** Returns the calls of handle_single_mode, in order. */
  method HandleMode(sv: Server, words: seq<string>, rests: seq<string>, numeric324: bool)
      returns (calls: seq<Change>)
    requires Coherent(words, rests)
    ensures calls == Changes(sv, words, rests, if numeric324 then 4 else 3)
  {
    var offset := if numeric324 then 4 else 3;
    var modes := words[offset + 1];
    if modes != "" && modes[0] == ':' {
      modes := modes[1..];
    }
    if modes == "" {
      return [];
    }
    var sign := modes[0];
    modes := modes[1..];
    var numArgs := CountArguments(words, offset);
    var numModes := CountModeChars(modes);
    calls := DispatchLoop(sv, words, rests, offset, modes, sign, numArgs, numArgs == numModes);
  }

  method CountArguments(words: seq<string>, offset: nat) returns (numArgs: nat)
    requires |words| == Tokenizer.PDIWORDS && offset + 2 < |words|
    ensures numArgs == CountArgs(words, offset + 2)
  {
    var i := 1;
    numArgs := 0;
    while i + offset + 1 < Tokenizer.PDIWORDS
      invariant 1 <= i && i + offset < Tokenizer.PDIWORDS && numArgs == i - 1
      invariant CountArgs(words, offset + 2) == numArgs + CountArgs(words, i + offset + 1)
    {
      i := i + 1;
      if words[i + offset] == "" {
        break;
      }
      numArgs := numArgs + 1;
      if words[i + offset][0] == ':' {
        break;
      }
    }
  }

  method CountModeChars(modes: string) returns (n: nat)
    ensures n == CountModes(modes)
  {
    var i := 0;
    n := 0;
    while i < |modes|
      invariant 0 <= i <= |modes| && CountModes(modes) == n + CountModes(modes[i..])
    {
      assert modes[i..][1..] == modes[i + 1..];
      if modes[i] != '+' && modes[i] != '-' {
        n := n + 1;
      }
      i := i + 1;
    }
  }

  method DispatchLoop(sv: Server, words: seq<string>, rests: seq<string>, offset: nat, modes: string,
                      sign0: char, numArgs: nat, all: bool) returns (calls: seq<Change>)
    requires Coherent(words, rests) && offset + 2 < |words| && numArgs == CountArgs(words, offset + 2)
    ensures calls == Dispatch(sv, modes, sign0, ArgTexts(words, rests, offset + 2, numArgs), all)
  {
    hide *;
    ghost var args := ArgTexts(words, rests, offset + 2, numArgs);
    ghost var whole := Dispatch(sv, modes, sign0, args, all);
    var sign, arg, i := sign0, 1, 0;
    calls := [];
    Begin(sv, modes, sign, args, all);
    while i < |modes|
      invariant 0 <= i <= |modes| && 1 <= arg <= |args| + 1
      invariant Split(whole, calls, Left(sv, modes, i, sign, args, arg - 1, all))
    {
      LeftStep(sv, whole, calls, modes, i, sign, args, arg - 1, all);
      var call;
      sign, arg, call := DispatchTurn(sv, words, rests, offset, modes[i], sign, arg, numArgs, all, args);
      calls := calls + call;
      i := i + 1;
    }
    Finish(sv, whole, calls, modes, sign, args, arg - 1, all);
  }

  /** What one character of the mode word does when `a` arguments are used: the sign from then on, how
      many are used then, and the change if it is a mode. */
  function TurnOf(sv: Server, sign: char, c: char, args: seq<string>, a: nat, all: bool): (r: (char, nat, seq<Change>))
    requires a <= |args|
    ensures a <= r.1 <= |args|
  {
    if c == '-' || c == '+' then (c, a, [])
    else if (all || HasArg(sv, sign, c)) && a < |args| then (sign, a + 1, [Change(sign, c, args[a])])
    else (sign, a, [Change(sign, c, "")])
  }

  /** One turn of the loop over the mode word. */
  method DispatchTurn(sv: Server, words: seq<string>, rests: seq<string>, offset: nat, c: char, sign0: char,
                      arg0: nat, numArgs: nat, all: bool, ghost args: seq<string>)
      returns (sign: char, arg: nat, call: seq<Change>)
    requires Coherent(words, rests) && numArgs == CountArgs(words, offset + 2)
    requires args == ArgTexts(words, rests, offset + 2, numArgs) && 1 <= arg0 <= |args| + 1
    ensures 1 <= arg && (sign, arg - 1, call) == TurnOf(sv, sign0, c, args, arg0 - 1, all)
  {
    hide HasArg, ArgText, CountArgs, ArgTexts;
    sign, arg, call := sign0, arg0, [];
    if c == '-' || c == '+' {
      sign := c;
      return;
    }
    var argstr := "";
    var takes := ModeHasArg(sv, sign, c);
    if (all || takes) && arg < numArgs + 1 {
      arg := arg + 1;
      ArgTextsAt(words, rests, offset + 2, numArgs, arg - 2);
      argstr := ArgText(words, rests, arg + offset);
    }
    call := [Change(sign, c, argstr)];
  }

  /** What is still to come at mode character `i` with the first `a` arguments used. */
  function Left(sv: Server, modes: string, i: nat, sign: char, args: seq<string>, a: nat, all: bool): seq<Change>
    requires i <= |modes| && a <= |args|
  {
    Dispatch(sv, modes[i..], sign, args[a..], all)
  }

  lemma Finish(sv: Server, whole: seq<Change>, calls: seq<Change>, modes: string, sign: char,
               args: seq<string>, a: nat, all: bool)
    requires a <= |args| && Split(whole, calls, Left(sv, modes, |modes|, sign, args, a, all))
    ensures calls == whole
  {
    assert calls + [] == calls;
  }

  ghost predicate Split(whole: seq<Change>, calls: seq<Change>, more: seq<Change>) {
    whole == calls + more
  }

  lemma Begin(sv: Server, modes: string, sign: char, args: seq<string>, all: bool)
    ensures Split(Dispatch(sv, modes, sign, args, all), [], Left(sv, modes, 0, sign, args, 0, all))
  {
    assert modes[0..] == modes && args[0..] == args;
  }

  lemma ArgTextsAt(words: seq<string>, rests: seq<string>, i: nat, n: nat, k: nat)
    requires Coherent(words, rests) && n <= CountArgs(words, i) && k < n
    ensures i + k < |words| && words[i + k] != ""
    ensures ArgTexts(words, rests, i, n)[k] == ArgText(words, rests, i + k)
  {
    CountedNonempty(words, i, k);
  }

  lemma LeftStep(sv: Server, whole: seq<Change>, calls: seq<Change>, modes: string, i: nat, sign: char,
                 args: seq<string>, a: nat, all: bool)
    requires i < |modes| && a <= |args| && Split(whole, calls, Left(sv, modes, i, sign, args, a, all))
    ensures var (sign', a', call) := TurnOf(sv, sign, modes[i], args, a, all);
            Split(whole, calls + call, Left(sv, modes, i + 1, sign', args, a', all))
  {
    var (sign', a', call) := TurnOf(sv, sign, modes[i], args, a, all);
    LeftTurn(sv, modes, i, sign, args, a, all);
    hide Left, TurnOf;
    Assoc(calls, call, Left(sv, modes, i + 1, sign', args, a', all));
  }

  lemma LeftTurn(sv: Server, modes: string, i: nat, sign: char, args: seq<string>, a: nat, all: bool)
    requires i < |modes| && a <= |args|
    ensures var (sign', a', call) := TurnOf(sv, sign, modes[i], args, a, all);
            Left(sv, modes, i, sign, args, a, all) == call + Left(sv, modes, i + 1, sign', args, a', all)
  {
    hide HasArg;
    assert modes[i..][1..] == modes[i + 1..];
    assert a < |args| ==> args[a..][0] == args[a] && args[a..][1..] == args[a + 1..];
  }

  // ---------------------------------------------------------------------
  // Arguments are used left to right, each at most once, and none is invented
  // ---------------------------------------------------------------------

  /** For each mode character of the word: its sign, the character, and whether it asks for an
      argument. */
  datatype Ask = Ask(sign: char, mode: char, wants: bool)

  function Asks(sv: Server, modes: string, sign: char, all: bool): seq<Ask> {
    if modes == "" then []
    else if modes[0] == '+' || modes[0] == '-' then Asks(sv, modes[1..], modes[0], all)
    else [Ask(sign, modes[0], all || HasArg(sv, sign, modes[0]))] + Asks(sv, modes[1..], sign, all)
  }

  function Wanting(asks: seq<Ask>): nat {
    if asks == [] then 0 else (if asks[0].wants then 1 else 0) + Wanting(asks[1..])
  }

  function Answer(asks: seq<Ask>, args: seq<string>, j: nat): Change
    requires j < |asks|
  {
    var n := Wanting(asks[..j]);
    Change(asks[j].sign, asks[j].mode, if asks[j].wants && n < |args| then args[n] else "")
  }

  lemma AnswerCons(asks: seq<Ask>, args: seq<string>, j: nat)
    requires 0 < j < |asks|
    ensures var used := if asks[0].wants && args != [] then 1 else 0;
            Answer(asks, args, j) == Answer(asks[1..], args[used..], j - 1)
  {
    var n := Wanting(asks[1..][..j - 1]);
    assert asks[..j][0] == asks[0] && asks[..j][1..] == asks[1..][..j - 1];
    assert Wanting(asks[..j]) == n + if asks[0].wants then 1 else 0;
  }

  lemma AnswerFirst(asks: seq<Ask>, args: seq<string>)
    requires asks != []
    ensures Answer(asks, args, 0) == Change(asks[0].sign, asks[0].mode, if asks[0].wants && args != [] then args[0] else "")
  {
    assert asks[..0] == [] && Wanting(asks[..0]) == 0;
  }

  /** The j-th change has the j-th mode character with the sign in force there, and if it wants an
      argument it gets the one whose number is the count of those wanted before it, if there is
      one that far. */
  lemma {:induction false} DispatchConsumes(sv: Server, modes: string, sign: char, args: seq<string>,
                                            all: bool, j: nat)
    ensures |Dispatch(sv, modes, sign, args, all)| == |Asks(sv, modes, sign, all)| == CountModes(modes)
    ensures j < |Asks(sv, modes, sign, all)| ==>
              Dispatch(sv, modes, sign, args, all)[j] == Answer(Asks(sv, modes, sign, all), args, j)
    decreases |modes|
  {
    hide HasArg;
    if modes != "" {
      var asks := Asks(sv, modes, sign, all);
      if modes[0] == '+' || modes[0] == '-' {
        DispatchConsumes(sv, modes[1..], modes[0], args, all, j);
      } else {
        var used := if asks[0].wants && args != [] then 1 else 0;
        assert args[0..] == args;
        DispatchConsumes(sv, modes[1..], sign, args[used..], all, if j > 0 then j - 1 else 0);
        hide Answer, Wanting;
        if j == 0 {
          AnswerFirst(asks, args);
        } else if j < |asks| {
          AnswerCons(asks, args, j);
        }
      }
    }
  }
}
