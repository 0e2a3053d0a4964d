/** The edit line of the console as a value: the command buffer, the caret
    (counted from the end of the prompt prefix) and the history cursor, with
    one transition per key or text event, as `Console.WindowOnKeyPressed` and
    `Console.TextInputHandler` perform them; also the pure parts of
    tab completion and of splitting a submitted line into a command. */
module Editing {
  import opened Text

  /** `cursor` is `historyLine`: 0 when not browsing, k for the k-th most recent entry. */
  datatype EditState = EditState(buffer: string, caret: int, cursor: int)

  predicate CaretInRange(e: EditState) {
    0 <= e.caret <= |e.buffer|
  }

  predicate CursorInRange(e: EditState, history: seq<string>) {
    0 <= e.cursor <= |history|
  }

  predicate InRange(e: EditState, history: seq<string>) {
    CaretInRange(e) && CursorInRange(e, history)
  }

  /** The key codes `TextInputHandler` drops: Back (8), Tab (9), Enter (13) and Escape (27). */
  predicate IsFiltered(ch: char) {
    ch == 8 as char || ch == 9 as char || ch == 13 as char || ch == 27 as char
  }

  /** Text input: unless its first character is filtered, the caret moves one
      place and the text is appended at the END of the buffer, wherever the
      caret is. */
  function TypeText(e: EditState, unicode: string): (r: EditState)
    requires |unicode| >= 1
    ensures r.cursor == e.cursor
    ensures CaretInRange(e) ==> CaretInRange(r)
    ensures IsFiltered(unicode[0]) ==> r == e
    ensures !IsFiltered(unicode[0]) ==>
      StartsWith(r.buffer, e.buffer) && r.buffer[|e.buffer|..] == unicode && r.caret == e.caret + 1
  {
    if IsFiltered(unicode[0]) then e else EditState(e.buffer + unicode, e.caret + 1, e.cursor)
  }

  /** Whether Backspace can remove the character before the caret: it
      throws when the caret has been moved past the end of the buffer. */
  predicate BackspaceDefined(e: EditState) {
    |e.buffer| > 0 && e.caret > 0 ==> e.caret <= |e.buffer|
  }

  /** Backspace: with a non-empty buffer and the caret past its start, exactly
      the character before the caret goes and the caret moves back over it;
      otherwise nothing changes. */
  function Backspace(e: EditState): (r: EditState)
    requires BackspaceDefined(e)
    ensures r.cursor == e.cursor
    ensures CaretInRange(e) ==> CaretInRange(r)
    ensures !(|e.buffer| > 0 && e.caret > 0) ==> r == e
    ensures |e.buffer| > 0 && e.caret > 0 ==>
      && r.caret == e.caret - 1
      && |r.buffer| == |e.buffer| - 1
      && (forall i :: 0 <= i < r.caret ==> r.buffer[i] == e.buffer[i])
      && (forall i :: r.caret <= i < |r.buffer| ==> r.buffer[i] == e.buffer[i + 1])
      && multiset(r.buffer) + multiset{e.buffer[e.caret - 1]} == multiset(e.buffer)
  {
    if |e.buffer| > 0 && e.caret > 0 then
      var b := e.buffer[..e.caret - 1] + e.buffer[e.caret..];
      assert e.buffer == e.buffer[..e.caret - 1] + [e.buffer[e.caret - 1]] + e.buffer[e.caret..];
      EditState(b, e.caret - 1, e.cursor)
    else e
  }

  /** Left: the caret moves back one place, stopping at 0. */
  function MoveLeft(e: EditState): (r: EditState)
    ensures r.buffer == e.buffer && r.cursor == e.cursor
    ensures CaretInRange(e) ==> CaretInRange(r)
    ensures r.caret == if e.caret > 0 then e.caret - 1 else e.caret
  {
    if e.caret > 0 then e.(caret := e.caret - 1) else e
  }

  /** Right: the caret moves forward one place, stopping at the buffer's end. */
  function MoveRight(e: EditState): (r: EditState)
    ensures r.buffer == e.buffer && r.cursor == e.cursor
    ensures CaretInRange(e) ==> CaretInRange(r)
    ensures r.caret == if e.caret < |e.buffer| then e.caret + 1 else e.caret
  {
    if e.caret < |e.buffer| then e.(caret := e.caret + 1) else e
  }

  /** Up: one entry further back in the history, while there is one; the
      caret goes to the end of the buffer in either case. */
  function HistoryUp(e: EditState, history: seq<string>): (r: EditState)
    requires CursorInRange(e, history)
    ensures InRange(r, history) && r.caret == |r.buffer|
    ensures e.cursor < |history| ==> r.cursor == e.cursor + 1 && r.buffer == history[|history| - r.cursor]
    ensures e.cursor == |history| ==> r.cursor == e.cursor && r.buffer == e.buffer
  {
    var cursor := if e.cursor < |history| then e.cursor + 1 else e.cursor;
    var buffer := if e.cursor < |history| then history[|history| - cursor] else e.buffer;
    EditState(buffer, |buffer|, cursor)
  }

  /** Down: above entry 1 it moves one entry forward in the history; at 0 or 1
      it empties the buffer and leaves the cursor where it was. */
  function HistoryDown(e: EditState, history: seq<string>): (r: EditState)
    requires CursorInRange(e, history)
    ensures InRange(r, history) && r.caret == |r.buffer|
    ensures e.cursor > 1 ==> r.cursor == e.cursor - 1 && r.buffer == history[|history| - r.cursor]
    ensures e.cursor <= 1 ==> r.cursor == e.cursor && r.buffer == []
  {
    var cursor := if e.cursor > 1 then e.cursor - 1 else e.cursor;
    var buffer := if e.cursor > 1 then history[|history| - cursor] else [];
    EditState(buffer, |buffer|, cursor)
  }

  /** Return's effect on the edit line when no handler and no report
      throws: the buffer is added to the history and the line starts over.
      When one throws, the history still gains the buffer and the caret and
      cursor are reset, but the buffer stays (`ReturnWith`). */
  function Submit(e: EditState, history: seq<string>): (r: (EditState, seq<string>))
    ensures InRange(r.0, r.1) && r.0.buffer == [] && r.0.caret == 0 && r.0.cursor == 0
    ensures |r.1| == |history| + 1 && r.1[..|history|] == history && r.1[|history|] == e.buffer
  {
    (EditState([], 0, 0), history + [e.buffer])
  }

  /** `k` presses of Up. */
  function Ups(e: EditState, history: seq<string>, k: nat): (r: EditState)
    requires CursorInRange(e, history)
    ensures CursorInRange(r, history)
  {
    if k == 0 then e else HistoryUp(Ups(e, history, k - 1), history)
  }

  /** History recall: from a cursor of 0, k presses of Up show the k-th most
      recent entry, and once the oldest is reached further presses keep it. */
  lemma {:induction false} UpsRecall(e: EditState, history: seq<string>, k: nat)
    requires e.cursor == 0
    ensures var n := if k < |history| then k else |history|;
      Ups(e, history, k).cursor == n && (n > 0 ==> Ups(e, history, k).buffer == history[|history| - n])
  {
    if k > 0 {
      UpsRecall(e, history, k - 1);
    }
  }

  /** Down undoes Up while browsing below the oldest entry. */
  lemma DownUndoesUp(e: EditState, history: seq<string>)
    requires 1 <= e.cursor < |history|
    requires e.buffer == history[|history| - e.cursor] && e.caret == |e.buffer|
    ensures HistoryDown(HistoryUp(e, history), history) == e
  {
  }

  /** Down at entry 1 empties the buffer but keeps the cursor at 1, so the
      next Up shows the second most recent entry, not the most recent one. */
  lemma DownThenUpSkipsNewest(e: EditState, history: seq<string>)
    requires e.cursor == 1 && |history| >= 2
    ensures HistoryUp(HistoryDown(e, history), history).buffer == history[|history| - 2]
  {
  }

  /** `cs` typed one character at a time. */
  function TypeAll(e: EditState, cs: string): (r: EditState)
    ensures r.cursor == e.cursor
    decreases |cs|
  {
    if cs == [] then e else TypeAll(TypeText(e, [cs[0]]), cs[1..])
  }

  /** Typing printable characters with the caret at the end keeps it at the
      end, and the buffer grows by exactly what was typed. */
  lemma {:induction false} TypingAtEnd(e: EditState, cs: string)
    requires e.caret == |e.buffer|
    requires forall i :: 0 <= i < |cs| ==> !IsFiltered(cs[i])
    ensures TypeAll(e, cs) == EditState(e.buffer + cs, |e.buffer| + |cs|, e.cursor)
    decreases |cs|
  {
    if cs != [] {
      var e' := TypeText(e, [cs[0]]);
      assert e'.buffer == e.buffer + [cs[0]];
      TypingAtEnd(e', cs[1..]);
      assert e.buffer + [cs[0]] + cs[1..] == e.buffer + cs;
    }
  }

  /** Where the caret stands never changes what typing does to the buffer:
      from any caret the same characters give the same buffer, and the caret
      advances by the same amount. */
  lemma {:induction false} TypingIgnoresCaret(e: EditState, k: int, cs: string)
    ensures TypeAll(e.(caret := k), cs).buffer == TypeAll(e, cs).buffer
    ensures TypeAll(e.(caret := k), cs).caret - k == TypeAll(e, cs).caret - e.caret
    decreases |cs|
  {
    if cs != [] {
      var e1 := TypeText(e, [cs[0]]);
      var k1 := TypeText(e.(caret := k), [cs[0]]).caret;
      assert TypeText(e.(caret := k), [cs[0]]) == e1.(caret := k1);
      TypingIgnoresCaret(e1, k1, cs[1..]);
    }
  }

  /** The candidates that start with `token`, in candidate order (duplicates kept). */
  function Matches(cands: seq<string>, token: string): seq<string> {
    if cands == [] then []
    else
      var m := Matches(cands[..|cands| - 1], token);
      var last := cands[|cands| - 1];
      if StartsWith(last, token) then m + [last] else m
  }

  /** The matches are exactly the candidates that start with the token:
      every match is such a candidate, and every such candidate is a match. */
  lemma {:induction false} MatchesSpec(cands: seq<string>, token: string)
    ensures var r := Matches(cands, token);
      && |r| <= |cands|
      && (forall i :: 0 <= i < |r| ==> r[i] in cands && StartsWith(r[i], token))
      && (forall i :: 0 <= i < |cands| && StartsWith(cands[i], token) ==> cands[i] in r)
  {
    if cands != [] {
      var init := cands[..|cands| - 1];
      MatchesSpec(init, token);
      assert forall i :: 0 <= i < |cands| - 1 ==> cands[i] == init[i];
    }
  }

  /** `List.Find` with `StartsWith(token)`: the first candidate with the prefix. */
  function FirstMatch(cands: seq<string>, token: string): (r: Option<string>)
  {
    if cands == [] then None
    else if StartsWith(cands[0], token) then Some(cands[0])
    else FirstMatch(cands[1..], token)
  }

  /** `Find` picks the first of the matches. */
  lemma {:induction false} FirstMatchIsFirstOfMatches(cands: seq<string>, token: string)
    ensures FirstMatch(cands, token) == if Matches(cands, token) == [] then None else Some(Matches(cands, token)[0])
  {
    if cands != [] {
      var init := cands[..|cands| - 1];
      var last := cands[|cands| - 1];
      if |cands| == 1 {
        assert init == [];
        assert cands[1..] == [];
      } else {
        var tail := cands[1..];
        FirstMatchIsFirstOfMatches(tail, token);
        FirstMatchIsFirstOfMatches(init, token);
        assert tail[..|tail| - 1] == init[1..];
        MatchesConsDropsHead(cands, token);
      }
    }
  }

  /** Matches of a non-empty candidate list split into its head's and its tail's. */
  lemma {:induction false} MatchesConsDropsHead(cands: seq<string>, token: string)
    requires cands != []
    ensures Matches(cands, token) == (if StartsWith(cands[0], token) then [cands[0]] else []) + Matches(cands[1..], token)
    decreases |cands|
  {
    if |cands| == 1 {
      assert cands[..0] == [] && cands[1..] == [];
    } else {
      var init := cands[..|cands| - 1];
      MatchesConsDropsHead(init, token);
      assert init[1..] == cands[1..][..|cands[1..]| - 1];
      assert init[0] == cands[0];
      assert cands[1..][|cands[1..]| - 1] == cands[|cands| - 1];
    }
  }

  /** `AutoComplete`'s result for `token`: the single match and a space when
      exactly one candidate starts with it, the token unchanged otherwise. A
      completion always extends the token, and changes it exactly when the
      match is unique. */
  function Complete(token: string, cands: seq<string>): string {
    var m := Matches(cands, token);
    if |m| == 1 then m[0] + " " else token
  }

  /** A completion always extends the token, and changes it exactly when
      the match is unique. */
  lemma CompleteSpec(token: string, cands: seq<string>)
    ensures var r := Complete(token, cands);
      && StartsWith(r, token)
      && (r != token <==> |Matches(cands, token)| == 1)
      && (|Matches(cands, token)| == 1 ==> r == Matches(cands, token)[0] + " ")
  {
    var m := Matches(cands, token);
    if |m| == 1 {
      MatchesSpec(cands, token);
      assert StartsWith(m[0], token);
      assert (m[0] + " ")[..|token|] == m[0][..|token|];
    }
  }

  /** The start of the line listing several matches. */
  function AvailablePrefix(): string {
    "Available: "
  }

  lemma AvailablePrefixPlain()
    ensures '\n' !in AvailablePrefix() && NoBraces(AvailablePrefix())
  {
  }

  /** What the `Write` calls appended to the "Available: " line, and
      whether one of them threw. */
  datatype Listed = Listed(appended: string, threw: bool)

  /** What listing the matches `ms` leaves: each match and a space are
      appended through `Format`, in order, until one of them throws. */
  function AvailableListing(ms: seq<string>): Listed {
    if ms == [] then Listed([], false)
    else
      var l := AvailableListing(ms[..|ms| - 1]);
      if l.threw then l
      else
        match Format(ms[|ms| - 1] + " ")
        case None => Listed(l.appended, true)
        case Some(piece) => Listed(l.appended + piece, false)
  }

  /** The listing throws exactly when some match cannot be formatted. */
  lemma {:induction false} ListingThrows(ms: seq<string>)
    ensures AvailableListing(ms).threw <==> exists i :: 0 <= i < |ms| && Format(ms[i] + " ").None?
  {
    if ms != [] {
      var init := ms[..|ms| - 1];
      ListingThrows(init);
      if AvailableListing(init).threw {
        var i :| 0 <= i < |init| && Format(init[i] + " ").None?;
        assert ms[i] == init[i];
      } else {
        assert forall i :: 0 <= i < |init| ==> Format(ms[i] + " ").Some? by {
          assert forall i :: 0 <= i < |init| ==> init[i] == ms[i];
        }
      }
    }
  }

  /** Once a `Write` has thrown, the later matches add nothing. */
  lemma {:induction false} ListingKeepsThrow(ms: seq<string>, k: nat)
    requires k <= |ms| && AvailableListing(ms[..k]).threw
    ensures AvailableListing(ms) == AvailableListing(ms[..k])
  {
    if k < |ms| {
      var init := ms[..|ms| - 1];
      assert init[..k] == ms[..k];
      ListingKeepsThrow(init, k);
    } else {
      assert ms[..k] == ms;
    }
  }

  /** With plain names (no space, no line break, no brace), nothing throws
      and what is appended reads back as the matches in candidate order. */
  lemma ListingPlain(ms: seq<string>)
    requires forall i :: 0 <= i < |ms| ==> ' ' !in ms[i] && '\n' !in ms[i] && NoBraces(ms[i])
    ensures AvailableListing(ms) == Listed(Join(ms + [[]], " "), false)
    ensures Split(AvailableListing(ms).appended, ' ') == ms + [[]]
  {
    ListingJoin(ms);
    assert forall i :: 0 <= i < |ms + [[]]| ==> ' ' !in (ms + [[]])[i];
    SplitJoin(ms + [[]], ' ');
  }

  lemma {:induction false} ListingJoin(ms: seq<string>)
    requires forall i :: 0 <= i < |ms| ==> '\n' !in ms[i] && NoBraces(ms[i])
    ensures AvailableListing(ms) == Listed(Join(ms + [[]], " "), false)
  {
    if ms != [] {
      var init := ms[..|ms| - 1];
      var last := ms[|ms| - 1];
      assert forall i :: 0 <= i < |init| ==> init[i] == ms[i];
      ListingJoin(init);
      ListingSnocPlain(init, last);
      JoinSnoc(init, last, " ");
      assert init + [last] == ms;
    }
  }

  /** One more match after a listing that has not thrown: its piece is
      appended, or the listing throws. */
  lemma ListingSnoc(ms: seq<string>, name: string)
    requires !AvailableListing(ms).threw
    ensures AvailableListing(ms + [name]) ==
      match Format(name + " ")
      case None => Listed(AvailableListing(ms).appended, true)
      case Some(piece) => Listed(AvailableListing(ms).appended + piece, false)
  {
    assert (ms + [name])[..|ms|] == ms;
  }

  /** Listing the matches among one more candidate: a candidate that does
      not match changes nothing; one that does is appended, or throws. */
  lemma ListingStep(cands: seq<string>, i: int, token: string)
    requires 0 <= i < |cands| && !AvailableListing(Matches(cands[..i], token)).threw
    ensures var l := AvailableListing(Matches(cands[..i], token));
      var l' := AvailableListing(Matches(cands[..i + 1], token));
      if !StartsWith(cands[i], token) then l' == l
      else
        match Format(cands[i] + " ")
        case None => l' == Listed(l.appended, true)
        case Some(piece) => l' == Listed(l.appended + piece, false)
  {
    assert cands[..i + 1] == cands[..i] + [cands[i]];
    MatchesSnoc(cands[..i], cands[i], token);
    if StartsWith(cands[i], token) {
      ListingSnoc(Matches(cands[..i], token), cands[i]);
    }
  }

  /** A candidate whose piece `Format` refuses ends the listing of all the
      candidates: it throws with what the earlier matches appended. */
  lemma ListingStopsAt(cands: seq<string>, i: int, token: string)
    requires 0 <= i < |cands| && !AvailableListing(Matches(cands[..i], token)).threw
    requires StartsWith(cands[i], token) && Format(cands[i] + " ").None?
    ensures AvailableListing(Matches(cands, token)) ==
      Listed(AvailableListing(Matches(cands[..i], token)).appended, true)
  {
    ListingStep(cands, i, token);
    MatchesPrefix(cands, i + 1, token);
    ListingKeepsThrow(Matches(cands, token), |Matches(cands[..i + 1], token)|);
  }

  /** A plain name after a listing that has not thrown is appended with a space. */
  lemma ListingSnocPlain(ms: seq<string>, name: string)
    requires !AvailableListing(ms).threw && '\n' !in name && NoBraces(name)
    ensures AvailableListing(ms + [name]) == Listed(AvailableListing(ms).appended + name + " ", false)
  {
    assert (ms + [name])[..|ms|] == ms;
    PlainPiece(name);
  }

  /** A plain name and a space are written as they are. */
  lemma PlainPiece(name: string)
    requires '\n' !in name && NoBraces(name)
    ensures Format(name + " ") == Some(name + " ")
  {
    var piece := name + " ";
    assert NoBraces(piece) by {
      assert forall i :: 0 <= i < |name| ==> piece[i] == name[i];
    }
    assert piece[|piece| - 1] == ' ';
    assert piece == [] + piece + [];
    assert piece[0] != '\n' by {
      if name == [] { assert piece[0] == ' '; } else { assert piece[0] == name[0]; assert name[0] in name; }
    }
    TrimUnique([], piece, [], '\n');
  }

  /** One more candidate at the end adds it to the matches exactly when it
      starts with the token. */
  lemma MatchesSnoc(cands: seq<string>, x: string, token: string)
    ensures Matches(cands + [x], token) == if StartsWith(x, token) then Matches(cands, token) + [x] else Matches(cands, token)
  {
    assert (cands + [x])[..|cands|] == cands;
  }

  /** The matches of a prefix of the candidates are a prefix of the matches. */
  lemma {:induction false} MatchesPrefix(cands: seq<string>, k: nat, token: string)
    requires k <= |cands|
    ensures var p := Matches(cands[..k], token);
      |p| <= |Matches(cands, token)| && Matches(cands, token)[..|p|] == p
  {
    if k < |cands| {
      var init := cands[..|cands| - 1];
      assert init[..k] == cands[..k];
      MatchesPrefix(init, k, token);
    } else {
      assert cands[..k] == cands;
    }
  }

  /** Tab's view of the buffer: the text up to and including the last space
      (kept), the token after it (completed) and the first word (the context
      that selects the candidates). */
  datatype TabTarget = TabTarget(head: string, token: string, context: string)

  function TabSplit(buffer: string): TabTarget {
    if ' ' in buffer then
      var last := LastIndexOf(buffer, ' ') + 1;
      TabTarget(buffer[..last], buffer[last..], buffer[..IndexOf(buffer, ' ')])
    else TabTarget([], buffer, [])
  }

  /** The kept head and the token give the buffer back; neither the token
      nor the context holds a space; with a space, the context is the first
      word and the head ends at the last space. */
  lemma TabSplitSpec(buffer: string)
    ensures var t := TabSplit(buffer);
      && t.head + t.token == buffer
      && ' ' !in t.token && ' ' !in t.context
      && (' ' !in buffer ==> t == TabTarget([], buffer, []))
      && (' ' in buffer ==> |t.context| < |buffer| && buffer[..|t.context|] == t.context && buffer[|t.context|] == ' ')
      && (' ' in buffer ==> t.head != [] && t.head[|t.head| - 1] == ' ')
  {
    if ' ' in buffer {
      var last := LastIndexOf(buffer, ' ') + 1;
      assert buffer[..last] + buffer[last..] == buffer;
    }
  }

  /** A submitted line as the dispatcher sees it: the lower-cased first word,
      and the other words, or `None` (`null`) when there are none. */
  datatype Command = Command(name: string, args: Option<seq<string>>)

  function Tokenize(line: string): (c: Command)
    ensures c.args.None? <==> ' ' !in line
    ensures c.args.Some? ==> |c.args.value| >= 1
    ensures forall i :: 0 <= i < |c.name| ==> c.name[i] != ' ' && !('A' <= c.name[i] <= 'Z')
  {
    var parts := Split(line, ' ');
    SplitSpec(line, ' ');
    Command(ToLower(parts[0]), if |parts| > 1 then Some(parts[1..]) else None)
  }

  function ArgList(args: Option<seq<string>>): seq<string> {
    match args
    case None => []
    case Some(a) => a
  }

  /** The arguments are exactly the rest of the line: the first word, as
      typed, and the arguments joined with spaces give the line back. */
  lemma TokenizeRejoins(line: string)
    ensures var c := Tokenize(line); var first := Split(line, ' ')[0];
      ToLower(first) == c.name && Join([first] + ArgList(c.args), " ") == line
  {
    var parts := Split(line, ' ');
    JoinSplit(line, ' ');
    assert parts == [parts[0]] + parts[1..];
  }
}
