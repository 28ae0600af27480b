/** One row of the conversation and its typewriter reveal. The interval timer
    becomes explicit `Tick` calls, one per 20 ms firing; a cleared interval
    never fires again. */
module ChatMessage {
  import opened JsText
  import opened Messages

  /** Period of the reveal interval, in milliseconds. */
  const TickIntervalMs: nat := 20

  /** The effect's branch condition: `message.role === 'assistant' && isTyping`. */
  predicate Reveals(m: Message, isTyping: bool) {
    m.role == Assistant && isTyping
  }

  /** What one reveal of a text has reached: the displayed content, the
      closure's counter `i`, the cursor flag, and whether its interval is
      still registered. */
  datatype RevealState = RevealState(shown: JsString, i: nat, cursor: bool, running: bool)

  /** The state the effect sets up before the first firing. */
  function StartState(): RevealState {
    RevealState([], 0, true, true)
  }

  /** One firing of the interval callback on `text`. A stopped interval does
      not fire. */
  function TickStep(text: JsString, s: RevealState): (s': RevealState)
    ensures s.i <= |text| && s.shown == text[..s.i] ==> s'.i <= |text| && s'.shown == text[..s'.i]
    ensures s'.i == s.i || s'.i == s.i + 1
    ensures s'.running ==> s.running
    ensures s'.cursor ==> s.cursor
  {
    if !s.running then s
    else if s.i < |text| then RevealState(text[..s.i + 1], s.i + 1, s.cursor, true)
    else RevealState(s.shown, s.i, false, false)
  }

  /** The state after `n` firings. Throughout, the displayed content is the
      prefix of the text the counter has reached, and the counter stays
      within `0 <= i <= |text|`. */
  function Ticks(text: JsString, n: nat): (s: RevealState)
    ensures s.i <= |text| && s.shown == text[..s.i]
  {
    if n == 0 then StartState() else TickStep(text, Ticks(text, n - 1))
  }

  function Min(a: nat, b: nat): nat {
    if a <= b then a else b
  }

  /** Closed form of a reveal: after `n` firings the first `min(n, |text|)`
      code units are shown, and cursor and interval live exactly while
      `n <= |text|`. */
  lemma {:induction false} TicksClosedForm(text: JsString, n: nat)
    ensures Ticks(text, n) ==
            RevealState(text[..Min(n, |text|)], Min(n, |text|), n <= |text|, n <= |text|)
  {
    if n > 0 {
      TicksClosedForm(text, n - 1);
    }
  }

  /** Each firing before the end shows exactly one more code unit. */
  lemma RevealGrowsByOne(text: JsString, n: nat)
    requires n < |text|
    ensures Ticks(text, n + 1).shown == Ticks(text, n).shown + [text[n]]
  {
    TicksClosedForm(text, n);
    TicksClosedForm(text, n + 1);
    assert text[..n + 1] == text[..n] + [text[n]];
  }

  /** After `|text|` firings the whole text is shown with the cursor; the next
      firing hides the cursor and stops the interval; any later firing
      changes nothing. */
  lemma RevealCompletes(text: JsString, m: nat)
    requires m > |text|
    ensures Ticks(text, |text|) == RevealState(text, |text|, true, true)
    ensures Ticks(text, m) == RevealState(text, |text|, false, false)
  {
    TicksClosedForm(text, |text|);
    TicksClosedForm(text, m);
  }

  /** A registered `setInterval` of one row, with what its closure holds. */
  datatype Interval = Interval(text: JsString, i: nat)

  /** One mounted row: its props, its two state fields, and the intervals it
      has registered and not cleared. */
  class MessageView {
    var message: Message
    var isTyping: bool
    var displayedContent: JsString
    var showCursor: bool
    var intervals: seq<Interval>
    var mounted: bool
    /** Firings since the effect last ran. */
    ghost var elapsed: nat

    /** Never two intervals at once; a mounted revealing row is `elapsed`
        firings into the reveal of its content; any other mounted row shows
        its content at once with no cursor. */
    ghost predicate Valid()
      reads this
    {
      && |intervals| <= 1
      && (!mounted ==> intervals == [])
      && (mounted && Reveals(message, isTyping) ==>
            var s := Ticks(message.content, elapsed);
            && displayedContent == s.shown
            && showCursor == s.cursor
            && intervals == (if s.running then [Interval(message.content, s.i)] else []))
      && (mounted && !Reveals(message, isTyping) ==>
            displayedContent == message.content && !showCursor && intervals == [])
    }

    /** Mounting: the initial empty state, then the effect's first run. */
    constructor (m: Message, typing: bool)
      ensures Valid() && mounted && message == m && isTyping == typing && elapsed == 0
      ensures Reveals(m, typing) ==>
                displayedContent == [] && showCursor && intervals == [Interval(m.content, 0)]
      ensures !Reveals(m, typing) ==>
                displayedContent == m.content && !showCursor && intervals == []
    {
      message, isTyping := m, typing;
      displayedContent, showCursor := [], false;
      intervals, mounted := [], true;
      elapsed := 0;
      new;
      RunEffect();
    }

    /** The effect body, run with no interval registered. */
    method RunEffect()
      requires mounted && intervals == []
      modifies this
      ensures Valid() && mounted && elapsed == 0
      ensures message == old(message) && isTyping == old(isTyping)
      ensures Reveals(message, isTyping) ==>
                displayedContent == [] && showCursor && intervals == [Interval(message.content, 0)]
      ensures !Reveals(message, isTyping) ==>
                displayedContent == message.content && !showCursor && intervals == []
    {
      elapsed := 0;
      if message.role == Assistant && isTyping {
        displayedContent := [];
        showCursor := true;
        intervals := [Interval(message.content, 0)];
      } else {
        displayedContent := message.content;
        showCursor := false;
      }
    }

    /** A re-render with new props. When content, role or `isTyping` differ,
        the cleanup clears the registered interval before the effect runs
        again; otherwise the effect does not run. */
    method Rerender(m: Message, typing: bool)
      requires Valid() && mounted
      modifies this
      ensures Valid() && mounted && message == m && isTyping == typing
      ensures (m.content, m.role, typing) != old((message.content, message.role, isTyping)) ==>
                && elapsed == 0
                && (Reveals(m, typing) ==>
                      displayedContent == [] && showCursor && intervals == [Interval(m.content, 0)])
                && (!Reveals(m, typing) ==>
                      displayedContent == m.content && !showCursor && intervals == [])
      ensures (m.content, m.role, typing) == old((message.content, message.role, isTyping)) ==>
                && displayedContent == old(displayedContent) && showCursor == old(showCursor)
                && intervals == old(intervals) && elapsed == old(elapsed)
    {
      if (m.content, m.role, typing) != (message.content, message.role, isTyping) {
        intervals := [];
        message, isTyping := m, typing;
        RunEffect();
      } else {
        message, isTyping := m, typing;
      }
    }

    /** One 20 ms period passes: the registered interval, if any, fires once. */
    method Tick()
      requires Valid()
      modifies this
      ensures Valid()
      ensures message == old(message) && isTyping == old(isTyping) && mounted == old(mounted)
      ensures old(intervals) == [] ==>
                displayedContent == old(displayedContent) && showCursor == old(showCursor)
                && intervals == [] && elapsed == old(elapsed)
      ensures old(intervals) != [] ==>
                var s := TickStep(message.content,
                                  RevealState(old(displayedContent), old(intervals[0].i), old(showCursor), true));
                && displayedContent == s.shown && showCursor == s.cursor
                && intervals == (if s.running then [Interval(message.content, s.i)] else [])
                && elapsed == old(elapsed) + 1
    {
      if intervals != [] {
        var iv := intervals[0];
        if iv.i < |iv.text| {
          displayedContent := iv.text[..iv.i + 1];
          intervals := [Interval(iv.text, iv.i + 1)];
        } else {
          showCursor := false;
          intervals := [];
        }
        elapsed := elapsed + 1;
      }
    }

    /** The interval keeps firing until it clears itself: afterwards the whole
        content is shown with no cursor and nothing is registered. */
    method RevealToEnd()
      requires Valid() && mounted
      modifies this
      ensures Valid() && mounted && message == old(message) && isTyping == old(isTyping)
      ensures displayedContent == message.content && !showCursor && intervals == []
    {
      while intervals != []
        invariant Valid() && mounted
        invariant message == old(message) && isTyping == old(isTyping)
        invariant intervals != [] ==> intervals[0].i <= |intervals[0].text|
        decreases if intervals == [] then 0 else |intervals[0].text| - intervals[0].i + 1
      {
        Tick();
        if intervals != [] {
          TicksClosedForm(message.content, elapsed);
        }
      }
      if Reveals(message, isTyping) {
        TicksClosedForm(message.content, elapsed);
      }
    }

    /** Unmounting runs the cleanup, so no interval outlives the row. */
    method Unmount()
      requires Valid() && mounted
      modifies this
      ensures Valid() && !mounted && intervals == []
      ensures message == old(message) && displayedContent == old(displayedContent)
              && showCursor == old(showCursor)
    {
      intervals := [];
      mounted := false;
    }
  }
}
