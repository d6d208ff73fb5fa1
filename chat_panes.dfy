/**
 * The per-channel state of gui/ChatPane.java: viewer count and peak, the tab
 * pulse decision, the chat cleanup counter with its one-request guard, the
 * autoscroll timestamp and the subscriber tally, together with the message
 * printing that reads them.
 *
 * The Swing document is the string `document`; the scroll bar position, the
 * viewport offset of cleanupChat and the current time are parameters. What a
 * pane adds to the global MessageQueue is collected in `outbox`.
 */
module ChatPanes {

  import opened Wrappers
  import opened JavaText
  import opened Messages
  import opened ChatLayout

  /** Settings the pane reads; each is a parameter of the operation that reads it. */
  datatype CleanupSettings = CleanupSettings(cleanupChat: bool, chatMax: int)

  // ---------------------------------------------------------------------------
  // The cleanup counter and its guard (ChatPane.java:195-207, 584-608)
  // ---------------------------------------------------------------------------

  /** cleanupCounter and messageOut */
  datatype CleanupState = CleanupState(counter: int, messageOut: bool)

  /**
   * The counter and guard after insertUpdate has seen `inserted`, and whether
   * it enqueued a CLEAR_TEXT request.
   */
  function AfterInsert(settings: CleanupSettings, st: CleanupState, inserted: string): (r: (CleanupState, bool))
    ensures r.1 <==> settings.cleanupChat && !st.messageOut && r.0.counter > settings.chatMax
    ensures r.1 ==> r.0.messageOut
    ensures r.0.messageOut <==> st.messageOut || r.1
    ensures r.0.counter - st.counter == (if settings.cleanupChat && '\n' in inserted then 1 else 0)
  {
    if !settings.cleanupChat then (st, false)
    else
      var counter := if '\n' in inserted then st.counter + 1 else st.counter;
      if counter > settings.chatMax && !st.messageOut then (CleanupState(counter, true), true)
      else (CleanupState(counter, st.messageOut), false)
  }

  /** The state after a run of inserts, and how many requests they enqueued */
  function InsertRun(settings: CleanupSettings, st: CleanupState, texts: seq<string>): (CleanupState, nat)
    decreases |texts|
  {
    if texts == [] then (st, 0)
    else
      var step := AfterInsert(settings, st, texts[0]);
      var rest := InsertRun(settings, step.0, texts[1..]);
      (rest.0, rest.1 + (if step.1 then 1 else 0))
  }

  /** Number of texts with a line break */
  function LineBreaks(texts: seq<string>): nat {
    if texts == [] then 0 else (if '\n' in texts[0] then 1 else 0) + LineBreaks(texts[1..])
  }

  /**
   * Between two cleanups at most one CLEAR_TEXT is enqueued, none while one is
   * outstanding, and the guard is up exactly when one is outstanding; the
   * counter counts the inserts that carry a line break.
   */
  lemma {:induction false} AtMostOneClearRequest(settings: CleanupSettings, st: CleanupState, texts: seq<string>)
    ensures var r := InsertRun(settings, st, texts);
      && r.1 <= 1
      && (st.messageOut ==> r.1 == 0)
      && (r.0.messageOut <==> st.messageOut || r.1 == 1)
      && r.0.counter == st.counter + (if settings.cleanupChat then LineBreaks(texts) else 0)
    decreases |texts|
  {
    if texts != [] {
      var step := AfterInsert(settings, st, texts[0]);
      AtMostOneClearRequest(settings, step.0, texts[1..]);
    }
  }

  /**
   * Once the counter passes chatMax with no request outstanding, the next
   * insert enqueues the request.
   */
  lemma RequestWhenOverMax(settings: CleanupSettings, st: CleanupState, inserted: string)
    requires settings.cleanupChat && !st.messageOut
    requires st.counter > settings.chatMax || (st.counter == settings.chatMax && '\n' in inserted)
    ensures AfterInsert(settings, st, inserted).1
  {
  }

  // ---------------------------------------------------------------------------
  // The autoscroll rule (ChatPane.java:227-243)
  // ---------------------------------------------------------------------------

  /** No timestamp: the scroll bar was not away from the bottom at the last event */
  const NoTimestamp := -1

  /** The wait before scrolling down anyway, in milliseconds */
  const ScrollWait := 10 * 1000

  /** The new scrollbarTimestamp, and whether scrollToBottom is called */
  function ScrollStep(atBottom: bool, timestamp: int, now: int): (r: (int, bool))
    ensures atBottom ==> r == (NoTimestamp, true)
    ensures !atBottom && timestamp == NoTimestamp ==> r == (now, false)
    ensures r.1 <==> atBottom || (timestamp != NoTimestamp && now - timestamp >= ScrollWait)
    ensures !r.1 ==> r.0 != NoTimestamp || now == NoTimestamp
    ensures r.1 ==> r.0 == NoTimestamp
  {
    if atBottom then (NoTimestamp, true)
    else if timestamp != NoTimestamp then
      if now - timestamp >= ScrollWait then (NoTimestamp, true) else (timestamp, false)
    else (now, false)
  }

  /** The scroll decisions for events that all find the scroll bar away from the bottom */
  function ScrollRun(timestamp: int, times: seq<int>): (r: (int, seq<bool>))
    ensures |r.1| == |times|
    decreases |times|
  {
    if times == [] then (timestamp, [])
    else
      var step := ScrollStep(false, timestamp, times[0]);
      var rest := ScrollRun(step.0, times[1..]);
      (rest.0, [step.1] + rest.1)
  }

  /**
   * Scrolled up with a recorded time: events within ten seconds of it never
   * scroll and keep the timestamp.
   */
  lemma {:induction false} WaitsWhileScrolledUp(timestamp: int, times: seq<int>)
    requires timestamp != NoTimestamp
    requires forall i :: 0 <= i < |times| ==> times[i] - timestamp < ScrollWait
    ensures var r := ScrollRun(timestamp, times);
      r.0 == timestamp && forall i :: 0 <= i < |r.1| ==> !r.1[i]
    decreases |times|
  {
    if times != [] {
      WaitsWhileScrolledUp(timestamp, times[1..]);
      var rest := ScrollRun(timestamp, times[1..]);
      assert ScrollRun(timestamp, times).1 == [false] + rest.1;
    }
  }

  /**
   * Leaving the bottom records the time; the events of the next ten seconds do
   * not scroll, and the first one after that does, clearing the timestamp.
   */
  lemma ScrollsAfterTenSeconds(first: int, waiting: seq<int>, late: int)
    requires first != NoTimestamp
    requires forall i :: 0 <= i < |waiting| ==> waiting[i] - first < ScrollWait
    requires late - first >= ScrollWait
    ensures var r := ScrollRun(NoTimestamp, [first] + waiting + [late]);
      && |r.1| == |waiting| + 2
      && (forall i :: 0 <= i < |waiting| + 1 ==> !r.1[i])
      && r.1[|waiting| + 1]
      && r.0 == NoTimestamp
  {
    WaitsWhileScrolledUp(first, waiting);
    ScrollRunAppend(first, waiting, late);
    var all := [first] + waiting + [late];
    assert all[0] == first && all[1..] == waiting + [late];
  }

  lemma {:induction false} ScrollRunAppend(timestamp: int, times: seq<int>, last: int)
    ensures var before := ScrollRun(timestamp, times);
      var step := ScrollStep(false, before.0, last);
      ScrollRun(timestamp, times + [last]) == (step.0, before.1 + [step.1])
    decreases |times|
  {
    if times == [] {
      assert times + [last] == [last] && [last][0] == last && [last][1..] == [];
      var step := ScrollStep(false, timestamp, last);
      assert [step.1] + [] == [] + [step.1];
    } else {
      var step := ScrollStep(false, timestamp, times[0]);
      assert (times + [last])[0] == times[0] && (times + [last])[1..] == times[1..] + [last];
      ScrollRunAppend(step.0, times[1..], last);
      var before := ScrollRun(step.0, times[1..]);
      var lastStep := ScrollStep(false, before.0, last);
      assert [step.1] + (before.1 + [lastStep.1]) == ([step.1] + before.1) + [lastStep.1];
    }
  }

  // ---------------------------------------------------------------------------
  // The subscriber tally (ChatPane.java:502-521)
  // ---------------------------------------------------------------------------

  /** onIconMessage counts an announcement only for a subscriber status without extra. */
  predicate CountsAsNewSub(status: Badge, m: Message) {
    status == Subscriber && m.extra == NoExtra
  }

  /** How many of a run of announcements the tally counts */
  function NewSubs(announcements: seq<(Badge, Message)>): (n: nat)
    ensures n <= |announcements|
  {
    if announcements == [] then 0
    else (if CountsAsNewSub(announcements[0].0, announcements[0].1) then 1 else 0) + NewSubs(announcements[1..])
  }

  /** Announcements that carry an extra (repeats, renewals) never change the tally. */
  lemma {:induction false} RepeatsNotCounted(announcements: seq<(Badge, Message)>)
    requires forall i :: 0 <= i < |announcements| ==> announcements[i].1.extra != NoExtra
    ensures NewSubs(announcements) == 0
  {
    if announcements != [] {
      RepeatsNotCounted(announcements[1..]);
    }
  }

  /** Java's string conversion of a possibly null content */
  function ContentText(content: Option<string>): string {
    match content
    case Some(s) => s
    case None => "null"
  }

  /** insertIcon: a space with no style, then the icon */
  function IconPieces(b: Badge, channel: Option<string>, iconLabel: Badge -> string): seq<Piece> {
    [Piece(" ", NoStyle), Piece(iconLabel(b), IconAttrs(b, channel))]
  }

  /** The same icon three times */
  function ThreeIcons(b: Badge, channel: Option<string>, iconLabel: Badge -> string): seq<Piece> {
    IconPieces(b, channel, iconLabel) + IconPieces(b, channel, iconLabel) + IconPieces(b, channel, iconLabel)
  }

  /** The pieces of a subscriber or donation announcement with the given tally */
  function IconMessagePieces(m: Message, status: Badge, subCount: int, iconLabel: Badge -> string): seq<Piece> {
    var channel := if status == Subscriber then m.channel else None;
    var tally := if status == Subscriber then " (" + IntToString(subCount + 1) + ") " else " ";
    [Piece("\n", Norm)] + ThreeIcons(status, channel, iconLabel)
    + [Piece(" " + ContentText(m.content) + tally, Norm)] + ThreeIcons(status, channel, iconLabel)
  }

  /**
   * An announcement is fourteen pieces: a newline, three icons, the content
   * with the tally for a subscriber, and the same three icons again; only a
   * subscription's icons name the channel.
   */
  lemma IconMessageShape(m: Message, status: Badge, subCount: int, iconLabel: Badge -> string)
    ensures var r := IconMessagePieces(m, status, subCount, iconLabel);
      && |r| == 14
      && r[0] == Piece("\n", Norm)
      && r[1..7] == r[8..] == ThreeIcons(status, if status == Subscriber then m.channel else None, iconLabel)
      && r[7].style == Norm
      && (status == Subscriber ==> r[7].text == " " + ContentText(m.content) + " (" + IntToString(subCount + 1) + ") ")
      && (status != Subscriber ==> r[7].text == " " + ContentText(m.content) + " ")
  {
    var channel := if status == Subscriber then m.channel else None;
    var icons := ThreeIcons(status, channel, iconLabel);
    var tally := if status == Subscriber then " (" + IntToString(subCount + 1) + ") " else " ";
    var middle := Piece(" " + ContentText(m.content) + tally, Norm);
    var r := IconMessagePieces(m, status, subCount, iconLabel);
    assert r == [Piece("\n", Norm)] + icons + [middle] + icons;
    FramedShape(Piece("\n", Norm), icons, middle);
  }

  /** A piece, six pieces, a piece and the same six again, read back by position */
  lemma FramedShape(first: Piece, icons: seq<Piece>, middle: Piece)
    requires |icons| == 6
    ensures var r := [first] + icons + [middle] + icons;
      |r| == 14 && r[0] == first && r[1..7] == icons && r[7] == middle && r[8..] == icons
  {
    var r := [first] + icons + [middle] + icons;
    assert r[1..7] == icons;
    assert r[8..] == icons;
  }

  /** log: a new line with the time, then the content, marked for system messages */
  function LogPieces(m: Message, isSystem: bool, time: string): (r: seq<Piece>)
    ensures |r| == 2 && r[0].style == Norm && r[1].style == Norm
    ensures Concat(r) == "\n" + time + " " + (if isSystem then "SYS: " else "") + ContentText(m.content)
    ensures StartsWith(Concat(r), "\n" + time + " ")
    ensures EndsWith(Concat(r), ContentText(m.content))
    ensures isSystem ==> StartsWith(Concat(r), "\n" + time + " SYS: ")
  {
    var head, mark, content := "\n" + time, if isSystem then "SYS: " else "", ContentText(m.content);
    var r := [Piece(head, Norm), Piece(" " + mark + content, Norm)];
    ConcatSingle(r[1]);
    assert r[1..] == [r[1]];
    var full := Concat(r);
    assert full == head + (" " + mark + content);
    assert full == (head + " ") + (mark + content);
    assert full == (head + " " + mark) + content;
    StartsWithAppend(head + " ", mark + content);
    EndsWithAppend(head + " " + mark, content);
    StartsWithAppend(head + " " + mark, content);
    r
  }

  /** A pane's view of its own pulse toggle: its own, or a combined pane's active pane's */
  datatype PaneKind = Single | Combined(activePulseLoc: bool)

  // ---------------------------------------------------------------------------
  // The pane
  // ---------------------------------------------------------------------------

  class ChatPane {
    const chan: string
    var index: int
    var subCount: int
    var viewerCount: int
    var viewerPeak: int
    var scrollbarTimestamp: int
    var cleanupCounter: int
    var messageOut: bool
    var shouldPulseLoc: bool
    var isTabVisible: bool
    /** The text of the pane's document */
    var document: string
    /** What this pane has added to MessageQueue, oldest first */
    var outbox: seq<Message>

    /** The peak is never below the count and never negative; the tally never goes down. */
    ghost predicate Valid()
      reads this
    {
      0 <= viewerPeak && viewerCount <= viewerPeak && 0 <= subCount
    }

    /** new ChatPane(channel, ..., index): a pane for the channel with an empty document */
    constructor (channel: string, tabIndex: int)
      ensures Valid()
      ensures chan == channel && index == tabIndex
      ensures viewerCount == -1 && viewerPeak == 0 && subCount == 0
      ensures scrollbarTimestamp == NoTimestamp && cleanupCounter == 0 && !messageOut
      ensures shouldPulseLoc && isTabVisible && document == [] && outbox == []
    {
      chan := channel;
      index := tabIndex;
      subCount := 0;
      viewerCount := -1;
      viewerPeak := 0;
      scrollbarTimestamp := NoTimestamp;
      cleanupCounter := 0;
      messageOut := false;
      shouldPulseLoc := true;
      isTabVisible := true;
      document := [];
      outbox := [];
    }

    /**
     * setViewerCount: the count becomes the new value and the peak the larger
     * of the old peak and the new value. The title is refreshed when the pane's
     * tab is the selected one.
     */
    method SetViewerCount(newCount: int, selectedIndex: int) returns (retitle: bool)
      requires Valid()
      modifies this
      ensures Valid()
      ensures viewerCount == newCount
      ensures viewerPeak == (if newCount > old(viewerPeak) then newCount else old(viewerPeak))
      ensures viewerPeak >= old(viewerPeak)
      ensures retitle <==> selectedIndex == index
      ensures unchanged(this`index, this`subCount, this`scrollbarTimestamp, this`cleanupCounter, this`messageOut)
      ensures unchanged(this`shouldPulseLoc, this`isTabVisible, this`document, this`outbox)
    {
      if newCount > viewerPeak {
        viewerPeak := newCount;
      }
      viewerCount := newCount;
      retitle := selectedIndex == index;
    }

    /** getViewerCountString: None stands for Java null */
    function ViewerCountString(): (r: Option<string>)
      reads this
      ensures r.None? <==> EqualsIgnoreCase(chan, "system logs")
      ensures r.Some? ==> StartsWith(r.value, "Viewer count: ")
      ensures r.Some? && viewerCount == -1 ==> r.value == "Viewer count: Offline"
    {
      if EqualsIgnoreCase(chan, "system logs") then None
      else if viewerCount == -1 then Some("Viewer count: Offline")
      else Some("Viewer count: " + Grouped(IntToString(viewerCount)) + " (" + Grouped(IntToString(viewerPeak)) + ")")
    }

    /**
     * shouldPulse: a tab pulses only when pulses are enabled, its toggle (or
     * its active pane's) is on, it is visible, not selected and not the first
     * tab.
     */
    function ShouldPulse(kind: PaneKind, showTabPulses: bool, selectedIndex: int): (r: bool)
      reads this
      ensures r ==> showTabPulses && isTabVisible && selectedIndex != index && index != 0
      ensures r ==> (if kind.Single? then shouldPulseLoc else kind.activePulseLoc)
      ensures showTabPulses && isTabVisible && selectedIndex != index && index != 0 && kind == Single && shouldPulseLoc ==> r
      ensures showTabPulses && isTabVisible && selectedIndex != index && index != 0 && kind.Combined? && kind.activePulseLoc ==> r
    {
      var local := match kind
        case Single => shouldPulseLoc
        case Combined(active) => active;
      showTabPulses && local && isTabVisible && selectedIndex != index && index != 0
    }

    /**
     * maybeScrollToBottom, returning whether scrollToBottom is called. The
     * clock and the scroll bar position are parameters.
     */
    method MaybeScrollToBottom(atBottom: bool, now: int) returns (scroll: bool)
      modifies this`scrollbarTimestamp
      ensures (scrollbarTimestamp, scroll) == ScrollStep(atBottom, old(scrollbarTimestamp), now)
    {
      if atBottom {
        scrollbarTimestamp := NoTimestamp;
        scroll := true;
      } else if scrollbarTimestamp != NoTimestamp {
        if now - scrollbarTimestamp >= ScrollWait {
          scrollbarTimestamp := NoTimestamp;
          scroll := true;
        } else {
          scroll := false;
        }
      } else {
        scrollbarTimestamp := now;
        scroll := false;
      }
    }

    /**
     * A string inserted at the end of the document, followed by the insertUpdate
     * it fires: the autoscroll rule, then the cleanup counter and guard, which
     * enqueue one CLEAR_TEXT naming this pane when the counter passes chatMax.
     */
    method InsertUpdate(inserted: string, settings: CleanupSettings, atBottom: bool, now: int)
      returns (scroll: bool)
      requires Valid()
      modifies this
      ensures Valid()
      ensures document == old(document) + inserted
      ensures (scrollbarTimestamp, scroll) == ScrollStep(atBottom, old(scrollbarTimestamp), now)
      ensures var r := AfterInsert(settings, CleanupState(old(cleanupCounter), old(messageOut)), inserted);
        && CleanupState(cleanupCounter, messageOut) == r.0
        && outbox == old(outbox) + (if r.1 then [ClearRequest()] else [])
      ensures unchanged(this`index, this`subCount, this`viewerCount, this`viewerPeak)
      ensures unchanged(this`shouldPulseLoc, this`isTabVisible)
    {
      document := document + inserted;
      scroll := MaybeScrollToBottom(atBottom, now);
      if settings.cleanupChat {
        if '\n' in inserted {
          cleanupCounter := cleanupCounter + 1;
        }
        if cleanupCounter > settings.chatMax {
          if !messageOut {
            outbox := outbox + [ClearRequest()];
            messageOut := true;
          }
        }
      }
    }

    /** The CLEAR_TEXT message whose extra is this pane */
    function ClearRequest(): (m: Message)
      reads this
      ensures m.kind == ClearText && m.extra == PaneRef(chan)
    {
      Message(ClearText, None, None, None, PaneRef(chan))
    }

    /**
     * cleanupChat. `viewStart` is the document offset of the viewport's top
     * left corner, None when one of the early returns is taken. A positive
     * offset within the document removes the text before it, which fires this
     * pane's removeUpdate and with it the autoscroll rule, and resets the
     * counter; an offset past the end makes the removal throw, which is
     * logged. Past the early returns the guard is always lowered. The scroll
     * bar position after the removal and the clock are parameters; `scroll`
     * is whether scrollToBottom is called.
     */
    method CleanupChat(viewStart: Option<int>, atBottom: bool, now: int) returns (scroll: bool)
      requires Valid()
      modifies this
      ensures Valid()
      ensures viewStart.None? ==> unchanged(this) && !scroll
      ensures viewStart.Some? ==> !messageOut
      ensures viewStart.Some? && 0 < viewStart.value <= |old(document)| ==>
        && document == old(document)[viewStart.value..] && cleanupCounter == 0
        && (scrollbarTimestamp, scroll) == ScrollStep(atBottom, old(scrollbarTimestamp), now)
      ensures viewStart.Some? && !(0 < viewStart.value <= |old(document)|) ==>
        && document == old(document) && cleanupCounter == old(cleanupCounter)
        && scrollbarTimestamp == old(scrollbarTimestamp) && !scroll
      ensures unchanged(this`index, this`subCount, this`viewerCount, this`viewerPeak)
      ensures unchanged(this`shouldPulseLoc, this`isTabVisible, this`outbox)
    {
      scroll := false;
      if viewStart.None? {
        return;
      }
      var start := viewStart.value;
      if start > 0 {
        if start <= |document| {
          document := document[start..];
          scroll := MaybeScrollToBottom(atBottom, now);
          cleanupCounter := 0;
        }
      }
      messageOut := false;
    }

    /**
     * onIconMessage: three icons, the content (with the tally for a
     * subscriber), three icons; the tally rises by one exactly for a subscriber
     * announcement without extra.
     */
    method OnIconMessage(m: Message, status: Badge, iconLabel: Badge -> string) returns (pieces: seq<Piece>)
      requires Valid()
      modifies this`subCount
      ensures Valid()
      ensures pieces == IconMessagePieces(m, status, old(subCount), iconLabel)
      ensures subCount == old(subCount) + (if CountsAsNewSub(status, m) then 1 else 0)
    {
      var channel := if status == Subscriber then m.channel else None;
      pieces := InsertIcons([Piece("\n", Norm)], status, channel, iconLabel);
      var tally := if status == Subscriber then " (" + IntToString(subCount + 1) + ") " else " ";
      pieces := pieces + [Piece(" " + ContentText(m.content) + tally, Norm)];
      pieces := InsertIcons(pieces, status, channel, iconLabel);
      if status == Subscriber && m.extra == NoExtra {
        subCount := subCount + 1;
      }
    }

    /**
     * onMessage: the header (time, badges, name and separator) followed by the
     * body laid out by printMessage over the links findLinks admits and the
     * emote ranges `emotes` adds; also whether the tab pulses. When the emote
     * ranges do not fit the text, substring throws and onMessage logs the
     * exception: the body is not printed and the pulse check after it is
     * never reached.
     */
    method OnMessage(m: Message, time: string, u: UserFlags, displayName: string,
                     showChannel: bool, showDonorIcons: bool, isMainChannel: bool,
                     subscriberActive: Option<bool>, mentionsKeyword: bool, iconLabel: Badge -> string,
                     matches: seq<UrlMatch>, inRanges: (int, RangeMap) -> bool, checkUrl: string -> bool,
                     emotes: (string, RangeMap, StyleMap) -> (RangeMap, StyleMap),
                     kind: PaneKind, showTabPulses: bool, selectedIndex: int)
      returns (pieces: seq<Piece>, pulse: bool)
      requires m.channel.Some? && |m.channel.value| >= 1 && m.sender.Some? && m.content.Some?
      requires MatchesIn(matches, m.content.value)
      ensures var header := Header(m, time, u, displayName, showChannel, showDonorIcons, isMainChannel,
                                   subscriberActive, iconLabel);
        var text := m.content.value;
        var links := FindLinksSpec(text, matches, map[], map[], inRanges, checkUrl);
        var found := emotes(text, links.0, links.1);
        var style := BodyStyle(mentionsKeyword, m.kind == ActionMessage);
        && (InBounds(found.0, text) ==> pieces == header + Walk(text, found.0, found.1, style, 0))
        && (!InBounds(found.0, text) ==> pieces == header)
      ensures var text := m.content.value;
        var links := FindLinksSpec(text, matches, map[], map[], inRanges, checkUrl);
        pulse <==> InBounds(emotes(text, links.0, links.1).0, text) && ShouldPulse(kind, showTabPulses, selectedIndex)
    {
      var text := m.content.value;
      pieces := Header(m, time, u, displayName, showChannel, showDonorIcons, isMainChannel,
                       subscriberActive, iconLabel);
      var style := BodyStyle(mentionsKeyword, m.kind == ActionMessage);
      var ranges, styles := FindLinks(text, matches, map[], map[], inRanges, checkUrl);
      var found := emotes(text, ranges, styles);
      if InRange(found.0, text) {
        var body := PrintMessage(text, found.0, found.1, style);
        pieces := pieces + body;
        pulse := ShouldPulse(kind, showTabPulses, selectedIndex);
      } else {
        pulse := false;
      }
    }
  }

  /** The three insertIcon calls of onIconMessage's loops, after what is already printed */
  method InsertIcons(before: seq<Piece>, status: Badge, channel: Option<string>, iconLabel: Badge -> string)
    returns (after: seq<Piece>)
    ensures after == before + ThreeIcons(status, channel, iconLabel)
  {
    after := before;
    var i := 0;
    while i < 3
      invariant 0 <= i <= 3
      invariant after == before + Repeat(IconPieces(status, channel, iconLabel), i)
    {
      after := after + IconPieces(status, channel, iconLabel);
      RepeatAppend(IconPieces(status, channel, iconLabel), i);
      i := i + 1;
    }
    ThreeIconsRepeat(status, channel, iconLabel);
  }

  /** The same pieces n times */
  function Repeat(p: seq<Piece>, n: nat): seq<Piece> {
    if n == 0 then [] else Repeat(p, n - 1) + p
  }

  lemma RepeatAppend(p: seq<Piece>, n: nat)
    ensures Repeat(p, n) + p == Repeat(p, n + 1)
  {
  }

  lemma ThreeIconsRepeat(b: Badge, channel: Option<string>, iconLabel: Badge -> string)
    ensures Repeat(IconPieces(b, channel, iconLabel), 3) == ThreeIcons(b, channel, iconLabel)
  {
    var p := IconPieces(b, channel, iconLabel);
    assert Repeat(p, 1) == p;
    assert Repeat(p, 2) == p + p;
  }

  /** The compiled check of InBounds */
  predicate InRange(ranges: RangeMap, text: string)
    ensures InRange(ranges, text) <==> InBounds(ranges, text)
  {
    forall s :: s in ranges ==> 0 <= s <= ranges[s] + 1 <= |text|
  }

  /** The icons of the badges, in order; subscription icons carry the channel */
  function BadgeIcons(badges: seq<Badge>, channel: string, iconLabel: Badge -> string): seq<Piece> {
    if badges == [] then []
    else IconPieces(badges[0], BadgeChannel(badges[0], channel), iconLabel) + BadgeIcons(badges[1..], channel, iconLabel)
  }

  /** Only the subscriber and ex-subscriber icons name the channel. */
  function BadgeChannel(b: Badge, channel: string): Option<string> {
    if b == Subscriber || b == ExSubscriber then Some(channel) else None
  }

  /** Each badge becomes a space and then its icon, in the badges' order. */
  lemma {:induction false} BadgeIconsLayout(badges: seq<Badge>, channel: string, iconLabel: Badge -> string)
    ensures var r := BadgeIcons(badges, channel, iconLabel);
      && |r| == 2 * |badges|
      && forall k :: 0 <= k < |badges| ==>
           r[2 * k] == Piece(" ", NoStyle) && r[2 * k + 1] == Piece(iconLabel(badges[k]), IconAttrs(badges[k], BadgeChannel(badges[k], channel)))
    decreases |badges|
  {
    if badges != [] {
      BadgeIconsLayout(badges[1..], channel, iconLabel);
      var rest := BadgeIcons(badges[1..], channel, iconLabel);
      var r := BadgeIcons(badges, channel, iconLabel);
      forall k | 0 <= k < |badges|
        ensures r[2 * k] == Piece(" ", NoStyle) && r[2 * k + 1] == Piece(iconLabel(badges[k]), IconAttrs(badges[k], BadgeChannel(badges[k], channel)))
      {
        if k > 0 {
          assert r[2 * k] == rest[2 * (k - 1)] && r[2 * k + 1] == rest[2 * (k - 1) + 1];
          assert badges[k] == badges[1..][k - 1];
        }
      }
    }
  }

  /**
   * What onMessage prints before the message body: the time, an icon for each
   * badge in order, then the name and the separator.
   */
  function Header(m: Message, time: string, u: UserFlags, displayName: string,
                  showChannel: bool, showDonorIcons: bool, isMainChannel: bool,
                  subscriberActive: Option<bool>, iconLabel: Badge -> string): (r: seq<Piece>)
    requires m.channel.Some? && |m.channel.value| >= 1 && m.sender.Some?
    ensures var badges := Badges(m.channel.value, m.sender.value, u, showDonorIcons, isMainChannel, subscriberActive);
      && |r| == 2 * |badges| + 4
      && r[0] == Piece("\n" + time, Norm)
      && (forall k :: 0 <= k < |badges| ==> r[2 * k + 1] == Piece(" ", NoStyle))
      && (forall k :: 0 <= k < |badges| ==>
            r[2 * k + 2] == Piece(iconLabel(badges[k]), IconAttrs(badges[k], BadgeChannel(badges[k], m.channel.value))))
      && r[|r| - 3] == Piece(" ", Norm)
      && r[|r| - 2] == Piece(displayName, UserName)
      && r[|r| - 1] == NameSuffix(showChannel, m.channel.value, m.kind == ActionMessage)
  {
    var channel := m.channel.value;
    var badges := Badges(channel, m.sender.value, u, showDonorIcons, isMainChannel, subscriberActive);
    var icons := BadgeIcons(badges, channel, iconLabel);
    BadgeIconsLayout(badges, channel, iconLabel);
    var first := Piece("\n" + time, Norm);
    var name := Piece(displayName, UserName);
    var suffix := NameSuffix(showChannel, channel, m.kind == ActionMessage);
    HeaderShape(first, icons, name, suffix);
    [first] + icons + [Piece(" ", Norm), name, suffix]
  }

  /** A piece, the badge icons, a space, the name and its suffix, read back by position */
  lemma HeaderShape(first: Piece, icons: seq<Piece>, name: Piece, suffix: Piece)
    ensures var r := [first] + icons + [Piece(" ", Norm), name, suffix];
      && |r| == |icons| + 4 && r[0] == first
      && (forall j :: 0 <= j < |icons| ==> r[j + 1] == icons[j])
      && r[|r| - 3] == Piece(" ", Norm) && r[|r| - 2] == name && r[|r| - 1] == suffix
  {
  }

  /**
   * The printed line of a chat message ends with the separator and the message
   * text, unchanged, when its special ranges do not overlap.
   */
  lemma MessageLineEndsWithText(header: seq<Piece>, text: string, ranges: RangeMap, styles: StyleMap, style: Style)
    requires InBounds(ranges, text) && Disjoint(ranges)
    ensures EndsWith(Concat(header + Walk(text, ranges, styles, style, 0)), text)
  {
    WalkRoundTrip(text, ranges, styles, style, 0);
    ConcatAppend(header, Walk(text, ranges, styles, style, 0));
  }

  /**
   * Reading back the viewer count line: deleting the commas from the count
   * gives its decimal text.
   */
  lemma ViewerCountDigits(p: ChatPane)
    requires !EqualsIgnoreCase(p.chan, "system logs") && p.viewerCount >= 0 && p.viewerPeak >= 0
    ensures var g := Grouped(NatToString(p.viewerCount));
      && p.ViewerCountString() == Some("Viewer count: " + g + " (" + Grouped(NatToString(p.viewerPeak)) + ")")
      && RemoveAll(g, ',') == NatToString(p.viewerCount)
  {
    GroupedSpec(NatToString(p.viewerCount));
  }
}
