/**
 * The question prompt: the player types an answer, edits it with BACKSPACE
 * and submits it with RETURN; closing the window counts as a wrong answer.
 * The answer is accepted when, stripped of surrounding whitespace and
 * lower-cased, it equals the lower-cased expected answer.
 */
module Prompt {
  import opened Questions

  datatype Option<T> = None | Some(value: T)

  datatype Key = ReturnKey | BackspaceKey | OtherKey

  /** The events the prompt reacts to; every other kind of event is `Other`. */
  datatype Event = Quit | KeyDown(key: Key, unicode: string) | Other

  /** Python's `str.isspace` for a single character. */
  predicate IsSpace(c: char)
  {
    var n := c as int;
    || (0x09 <= n <= 0x0D) || (0x1C <= n <= 0x20) || n == 0x85 || n == 0xA0 || n == 0x1680
    || (0x2000 <= n <= 0x200A) || n == 0x2028 || n == 0x2029 || n == 0x202F || n == 0x205F || n == 0x3000
  }

  /** `str.lower` on ASCII and Latin-1 capitals; other characters are left as they are. */
  function LowerChar(c: char): (d: char)
    ensures IsSpace(d) <==> IsSpace(c)
    ensures ('A' <= c <= 'Z') ==> d as int == c as int + 32
  {
    var n := c as int;
    if 0x41 <= n <= 0x5A || (0xC0 <= n <= 0xDE && n != 0xD7) then (n + 32) as char else c
  }

  function Lower(s: string): (t: string)
    ensures |t| == |s|
    ensures forall i :: 0 <= i < |s| ==> t[i] == LowerChar(s[i])
  {
    if s == [] then [] else [LowerChar(s[0])] + Lower(s[1..])
  }

  /** Lower-casing twice changes nothing more. */
  lemma LowerIdempotent(s: string)
    ensures Lower(Lower(s)) == Lower(s)
  {
  }

  function TrimStart(s: string): (t: string)
    ensures |t| <= |s| && t == s[|s| - |t|..]
    ensures t != [] ==> !IsSpace(t[0])
    ensures forall i :: 0 <= i < |s| - |t| ==> IsSpace(s[i])
  {
    if s != [] && IsSpace(s[0]) then TrimStart(s[1..]) else s
  }

  function TrimEnd(s: string): (t: string)
    ensures |t| <= |s| && t == s[..|t|]
    ensures t != [] ==> !IsSpace(t[|t| - 1])
    ensures forall i :: |t| <= i < |s| ==> IsSpace(s[i])
  {
    if s != [] && IsSpace(s[|s| - 1]) then TrimEnd(s[..|s| - 1]) else s
  }

  /** `str.strip()`. */
  function Strip(s: string): string
  {
    TrimEnd(TrimStart(s))
  }

  predicate AllSpace(s: string)
  {
    forall i :: 0 <= i < |s| ==> IsSpace(s[i])
  }

  /** Leading whitespace is dropped by `TrimStart`. */
  lemma {:induction false} TrimStartPadded(pre: string, x: string)
    requires AllSpace(pre)
    ensures TrimStart(pre + x) == TrimStart(x)
    decreases |pre|
  {
    if pre == [] {
      assert pre + x == x;
    } else {
      assert (pre + x)[1..] == pre[1..] + x;
      TrimStartPadded(pre[1..], x);
    }
  }

  /** Trailing whitespace is dropped by `TrimEnd`. */
  lemma {:induction false} TrimEndPadded(x: string, post: string)
    requires AllSpace(post)
    ensures TrimEnd(x + post) == TrimEnd(x)
    decreases |post|
  {
    if post == [] {
      assert x + post == x;
    } else {
      var p := post[..|post| - 1];
      assert (x + post)[..|x + post| - 1] == x + p;
      TrimEndPadded(x, p);
    }
  }

  /** Trailing whitespace survives `TrimStart` unless nothing else is left. */
  lemma {:induction false} TrimStartTrailing(s: string, post: string)
    requires AllSpace(post)
    ensures TrimStart(s + post) == TrimStart(s) + post || (TrimStart(s + post) == [] && TrimStart(s) == [])
    decreases |s|
  {
    if s == [] {
      assert s + post == post;
    } else if IsSpace(s[0]) {
      assert (s + post)[1..] == s[1..] + post;
      TrimStartTrailing(s[1..], post);
    }
  }

  /** Stripping removes exactly the surrounding whitespace: padding on either side makes no difference. */
  lemma StripPadded(pre: string, s: string, post: string)
    requires AllSpace(pre) && AllSpace(post)
    ensures Strip(pre + s + post) == Strip(s)
  {
    StripTrailing(s, post);
    assert Strip(pre + s + post) == Strip(s + post) by {
      assert pre + s + post == pre + (s + post);
      StripLeading(pre, s + post);
    }
  }

  /** Leading whitespace makes no difference to `Strip`. */
  lemma StripLeading(pre: string, s: string)
    requires AllSpace(pre)
    ensures Strip(pre + s) == Strip(s)
  {
    TrimStartPadded(pre, s);
  }

  /** Trailing whitespace makes no difference to `Strip`. */
  lemma StripTrailing(s: string, post: string)
    requires AllSpace(post)
    ensures Strip(s + post) == Strip(s)
  {
    TrimStartTrailing(s, post);
    TrimEndPadded(TrimStart(s), post);
  }

  /** The check RETURN applies. */
  predicate Verdict(text: string, answer: string)
  {
    Lower(Strip(text)) == Lower(answer)
  }

  /** Lower-casing keeps whitespace whitespace, so it commutes with the left trim. */
  lemma {:induction false} TrimStartLower(s: string)
    ensures TrimStart(Lower(s)) == Lower(TrimStart(s))
    decreases |s|
  {
    if s != [] {
      assert Lower(s)[1..] == Lower(s[1..]);
      if IsSpace(s[0]) {
        TrimStartLower(s[1..]);
      }
    }
  }

  /** ... and with the right trim. */
  lemma {:induction false} TrimEndLower(s: string)
    ensures TrimEnd(Lower(s)) == Lower(TrimEnd(s))
    decreases |s|
  {
    if s != [] {
      var p := s[..|s| - 1];
      assert Lower(s)[..|s| - 1] == Lower(p);
      if IsSpace(s[|s| - 1]) {
        TrimEndLower(p);
      }
    }
  }

  /** Case and surrounding whitespace in the typed text do not matter, nor does the case of the answer. */
  lemma VerdictIgnoresPaddingAndCase(pre: string, text: string, post: string, answer: string)
    requires AllSpace(pre) && AllSpace(post)
    ensures Verdict(pre + text + post, answer) == Verdict(text, answer)
    ensures Verdict(Lower(text), answer) == Verdict(text, answer)
    ensures Verdict(text, answer) == Verdict(text, Lower(answer))
  {
    StripPadded(pre, text, post);
    TrimStartLower(text);
    TrimEndLower(TrimStart(text));
    LowerIdempotent(Strip(text));
    LowerIdempotent(answer);
  }

  /**
   * The expected answer is not stripped: one that begins or ends with
   * whitespace can never be matched.
   */
  lemma PaddedAnswerIsUnreachable(text: string, answer: string)
    requires answer != [] && (IsSpace(answer[0]) || IsSpace(answer[|answer| - 1]))
    ensures !Verdict(text, answer)
  {
    var t := Strip(text);
    StripEnds(text);
    if |t| == |answer| {
      var k := if IsSpace(answer[0]) then 0 else |answer| - 1;
      assert IsSpace(answer[k]) && !IsSpace(t[k]);
      assert Lower(t)[k] == LowerChar(t[k]) && Lower(answer)[k] == LowerChar(answer[k]);
    }
  }

  /** A stripped text neither begins nor ends with whitespace. */
  lemma StripEnds(text: string)
    ensures var t := Strip(text); t != [] ==> !IsSpace(t[0]) && !IsSpace(t[|t| - 1])
  {
    var ts := TrimStart(text);
    var t := TrimEnd(ts);
    assert t == ts[..|t|];
    if t != [] {
      assert t[0] == ts[0];
    }
  }

  /** `user_text[:-1]`. */
  function DropLast(s: string): (t: string)
    ensures s == [] ==> t == []
    ensures s != [] ==> t + [s[|s| - 1]] == s
  {
    if s == [] then [] else s[..|s| - 1]
  }

  predicate Terminal(e: Event)
  {
    e.Quit? || (e.KeyDown? && e.key == ReturnKey)
  }

  /** The text after one non-terminal event: BACKSPACE drops a character, another key adds its text. */
  function Apply(text: string, e: Event): (t: string)
    ensures e.KeyDown? && e.key == OtherKey ==> t == text + e.unicode
    ensures e.KeyDown? && e.key == BackspaceKey ==> t == DropLast(text)
    ensures !e.KeyDown? ==> t == text
  {
    if e.KeyDown? && e.key == BackspaceKey then DropLast(text)
    else if e.KeyDown? && e.key == OtherKey then text + e.unicode
    else text
  }

  /** The text after a run of non-terminal events. */
  function Typed(text: string, events: seq<Event>): string
    decreases |events|
  {
    if events == [] then text else Typed(Apply(text, events[0]), events[1..])
  }

  /** The outcome once a terminal event arrives with `text` typed. */
  function Outcome(text: string, e: Event, answer: string): bool
    requires Terminal(e)
  {
    if e.Quit? then false else Verdict(text, answer)
  }

  /**
   * What the prompt returns for the events it receives, in order: `None`
   * when they run out before RETURN or a window close (the prompt would
   * still be waiting).
   */
  function Respond(text: string, events: seq<Event>, answer: string): Option<bool>
    decreases |events|
  {
    if events == [] then None
    else
      var e := events[0];
      if Terminal(e) then Some(Outcome(text, e, answer))
      else Respond(Apply(text, e), events[1..], answer)
  }

  /** The first RETURN or window close decides; nothing after it is read. */
  lemma {:induction false} FirstTerminalDecides(text: string, pre: seq<Event>, e: Event, post: seq<Event>, answer: string)
    requires forall i :: 0 <= i < |pre| ==> !Terminal(pre[i])
    requires Terminal(e)
    ensures Respond(text, pre + [e] + post, answer) == Some(Outcome(Typed(text, pre), e, answer))
    decreases |pre|
  {
    if pre == [] {
      assert pre + [e] + post == [e] + post;
      assert ([e] + post)[0] == e;
    } else {
      assert (pre + [e] + post)[0] == pre[0];
      assert (pre + [e] + post)[1..] == pre[1..] + [e] + post;
      FirstTerminalDecides(Apply(text, pre[0]), pre[1..], e, post, answer);
    }
  }

  /** Without a terminal event the prompt is still waiting. */
  lemma {:induction false} NoTerminalKeepsWaiting(text: string, events: seq<Event>, answer: string)
    requires forall i :: 0 <= i < |events| ==> !Terminal(events[i])
    ensures Respond(text, events, answer) == None
    decreases |events|
  {
    if events != [] {
      NoTerminalKeepsWaiting(Apply(text, events[0]), events[1..], answer);
    }
  }

  /** One key press per character of `s`. */
  function Keystrokes(s: string): (ks: seq<Event>)
    ensures |ks| == |s|
    ensures forall i :: 0 <= i < |ks| ==> ks[i] == KeyDown(OtherKey, [s[i]])
  {
    if s == [] then [] else [KeyDown(OtherKey, [s[0]])] + Keystrokes(s[1..])
  }

  lemma {:induction false} TypedKeystrokes(text: string, s: string)
    ensures Typed(text, Keystrokes(s)) == text + s
    decreases |s|
  {
    if s != [] {
      assert text + s == (text + [s[0]]) + s[1..];
      TypedKeystrokes(text + [s[0]], s[1..]);
    }
  }

  /** Typing the expected answer (without surrounding whitespace) and pressing RETURN is accepted. */
  lemma TypingTheAnswerWins(answer: string, post: seq<Event>)
    requires Strip(answer) == answer
    ensures Respond([], Keystrokes(answer) + [KeyDown(ReturnKey, [])] + post, answer) == Some(true)
  {
    var ks := Keystrokes(answer);
    var enter := KeyDown(ReturnKey, []);
    assert forall i :: 0 <= i < |ks| ==> !Terminal(ks[i]);
    FirstTerminalDecides([], ks, enter, post, answer);
    TypedKeystrokes([], answer);
    assert Typed([], ks) == answer;
    assert Outcome(answer, enter, answer);
  }

  /** Closing the window before RETURN is a wrong answer, whatever was typed. */
  lemma QuitIsWrong(text: string, pre: seq<Event>, post: seq<Event>, answer: string)
    requires forall i :: 0 <= i < |pre| ==> !Terminal(pre[i])
    ensures Respond(text, pre + [Quit] + post, answer) == Some(false)
  {
    FirstTerminalDecides(text, pre, Quit, post, answer);
  }

  /** The events of the successive polls of the prompt loop, in order. */
  function Concat(batches: seq<seq<Event>>): seq<Event>
    decreases |batches|
  {
    if batches == [] then [] else batches[0] + Concat(batches[1..])
  }

  lemma {:induction false} ConcatSnoc(batches: seq<seq<Event>>, i: nat)
    requires i < |batches|
    ensures Concat(batches[..i + 1]) == Concat(batches[..i]) + batches[i]
    decreases i
  {
    if i == 0 {
      assert batches[..1] == [batches[0]];
      assert Concat(batches[..1]) == batches[0] + Concat([]);
    } else {
      assert batches[..i + 1][1..] == batches[1..][..i];
      assert batches[..i][1..] == batches[1..][..i - 1];
      ConcatSnoc(batches[1..], i - 1);
    }
  }

  /** Reading past a run of non-terminal events continues from the text they typed. */
  lemma {:induction false} RespondAfter(text: string, pre: seq<Event>, rest: seq<Event>, answer: string)
    requires forall i :: 0 <= i < |pre| ==> !Terminal(pre[i])
    ensures Respond(text, pre + rest, answer) == Respond(Typed(text, pre), rest, answer)
    decreases |pre|
  {
    if pre != [] {
      assert (pre + rest)[0] == pre[0];
      assert (pre + rest)[1..] == pre[1..] + rest;
      RespondAfter(Apply(text, pre[0]), pre[1..], rest, answer);
    } else {
      assert pre + rest == rest;
    }
  }

  lemma {:induction false} TypedSnoc(text: string, pre: seq<Event>, e: Event)
    ensures Typed(text, pre + [e]) == Apply(Typed(text, pre), e)
    decreases |pre|
  {
    if pre == [] {
      assert pre + [e] == [e];
    } else {
      assert (pre + [e])[0] == pre[0];
      assert (pre + [e])[1..] == pre[1..] + [e];
      TypedSnoc(Apply(text, pre[0]), pre[1..], e);
    }
  }

  /**
   * The prompt loop over successive polls of the event queue. It returns
   * `None` when the polls run out before a decision.
   */
  method ReadAnswer(batches: seq<seq<Event>>, answer: string) returns (correct: Option<bool>)
    ensures correct == Respond([], Concat(batches), answer)
  {
    var userText := "";
    ghost var seen: seq<Event> := [];
    var i := 0;
    while i < |batches|
      invariant 0 <= i <= |batches|
      invariant seen == Concat(batches[..i])
      invariant forall k :: 0 <= k < |seen| ==> !Terminal(seen[k])
      invariant userText == Typed([], seen)
    {
      var batch := batches[i];
      var j := 0;
      while j < |batch|
        invariant 0 <= j <= |batch|
        invariant seen == Concat(batches[..i]) + batch[..j]
        invariant forall k :: 0 <= k < |seen| ==> !Terminal(seen[k])
        invariant userText == Typed([], seen)
      {
        var decided: bool;
        decided, correct, userText := HandleEvent(batches, i, j, seen, userText, answer);
        if decided {
          return;
        }
        seen := seen + [batch[j]];
        j := j + 1;
      }
      assert batch[..j] == batch;
      ConcatSnoc(batches, i);
      i := i + 1;
    }
    assert batches[..i] == batches;
    NoTerminalKeepsWaiting([], seen, answer);
    correct := None;
  }

  /**
   * The body of the prompt loop for event `j` of poll `i`: RETURN or a
   * window close decides, BACKSPACE drops a character, another key adds
   * its text.
   */
  method HandleEvent(batches: seq<seq<Event>>, i: nat, j: nat, ghost seen: seq<Event>, userText: string, answer: string)
    returns (decided: bool, correct: Option<bool>, text: string)
    requires i < |batches| && j < |batches[i]|
    requires seen == Concat(batches[..i]) + batches[i][..j]
    requires forall k :: 0 <= k < |seen| ==> !Terminal(seen[k])
    requires userText == Typed([], seen)
    ensures decided <==> Terminal(batches[i][j])
    ensures decided ==> correct == Respond([], Concat(batches), answer)
    ensures !decided ==> text == Typed([], seen + [batches[i][j]])
    ensures !decided ==> batches[i][..j + 1] == batches[i][..j] + [batches[i][j]]
  {
    var event := batches[i][j];
    text := userText;
    correct := None;
    decided := false;
    if event.Quit? {
      DecidedHere(batches, i, j, seen, answer);
      return true, Some(false), text;
    }
    if event.KeyDown? {
      if event.key == ReturnKey {
        DecidedHere(batches, i, j, seen, answer);
        return true, Some(Lower(Strip(userText)) == Lower(answer)), text;
      } else if event.key == BackspaceKey {
        text := DropLast(userText);
      } else {
        text := userText + event.unicode;
      }
    }
    TypedSnoc([], seen, event);
    assert batches[i][..j + 1] == batches[i][..j] + [event];
  }

  /** The decision at event `j` of poll `i` is the decision over all polls. */
  lemma DecidedHere(batches: seq<seq<Event>>, i: nat, j: nat, seen: seq<Event>, answer: string)
    requires i < |batches| && j < |batches[i]|
    requires seen == Concat(batches[..i]) + batches[i][..j]
    requires forall k :: 0 <= k < |seen| ==> !Terminal(seen[k])
    requires Terminal(batches[i][j])
    ensures Respond([], Concat(batches), answer) == Some(Outcome(Typed([], seen), batches[i][j], answer))
  {
    var e := batches[i][j];
    ConcatSplit(batches, i);
    assert batches[i] == batches[i][..j] + [e] + batches[i][j + 1..];
    var post := batches[i][j + 1..] + Concat(batches[i + 1..]);
    assert Concat(batches) == seen + [e] + post;
    FirstTerminalDecides([], seen, e, post, answer);
  }

  lemma {:induction false} ConcatSplit(batches: seq<seq<Event>>, i: nat)
    requires i < |batches|
    ensures Concat(batches) == Concat(batches[..i]) + batches[i] + Concat(batches[i + 1..])
    decreases i
  {
    if i == 0 {
      assert batches[..0] == [];
      assert batches[1..] == batches[i + 1..];
    } else {
      ConcatSplit(batches[1..], i - 1);
      assert batches[1..][..i - 1] == batches[..i][1..];
      assert batches[1..][i - 1] == batches[i];
      assert batches[1..][i..] == batches[i + 1..];
      assert Concat(batches[..i]) == batches[0] + Concat(batches[..i][1..]);
    }
  }

  /**
   * `ask_question`: draws one question from the pool, then runs the prompt
   * on the events of the successive polls.
   */
  method AskQuestion(pool: QuestionPool, pick: nat, batches: seq<seq<Event>>) returns (correct: Option<bool>)
    requires pool.Valid() && pick < |Candidates(pool.questions, pool.used)|
    modifies pool`used
    ensures pool.Valid()
    ensures var (q, used) := Draw(pool.questions, old(pool.used), pick);
            pool.used == used && correct == Respond([], Concat(batches), q.answer)
  {
    var question := pool.GetQuestion(pick);
    correct := ReadAnswer(batches, question.answer);
  }
}
