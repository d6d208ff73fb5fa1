/**
 * irc/IRCViewer.java: the viewer account's protocol callbacks. Each callback
 * either appends a typed message to MessageQueue or changes shared state: the
 * account manager's task queue, GUIMain.channelSet, BanQueue, the subscriber
 * records and the room-state settings of the main window.
 *
 * Collaborators whose code is not part of this model are parameters:
 * Utils.isMainChannel is a boolean, SubscriberManager.addNewSubscriber a
 * function from the records to its answer and the new records, and the
 * settings each handler reads are booleans.
 */
module Irc {

  import opened Wrappers
  import opened JavaText
  import opened Messages
  import ChatPanes
  import ChatLayout

  /** doConnect / doLeave: a channel name with its leading '#' */
  function ChannelName(channel: string): (r: string)
    ensures StartsWith(r, "#")
    ensures StartsWith(channel, "#") ==> r == channel
    ensures !StartsWith(channel, "#") ==> r[1..] == channel
  {
    if StartsWith(channel, "#") then channel else "#" + channel
  }

  /** Normalising a normalised name changes nothing. */
  lemma ChannelNameIdempotent(channel: string)
    ensures ChannelName(ChannelName(channel)) == ChannelName(channel)
  {
  }

  /** Two names normalise alike exactly when they name the same channel with or without '#'. */
  lemma ChannelNameSame(a: string, b: string)
    requires !StartsWith(a, "#")
    ensures ChannelName(a) == ChannelName(b) <==> b == a || b == "#" + a
  {
    if ChannelName(a) == ChannelName(b) && !StartsWith(b, "#") {
      assert ("#" + a)[1..] == a && ("#" + b)[1..] == b;
    }
  }

  /** The content of a HOSTING_NOTIFY message (IRCViewer.java:81-92) */
  function HostingContent(channel: string, target: string, viewers: string): (r: string)
    ensures target == "-" ==> r == "Exited host mode."
    ensures target != "-" ==> StartsWith(r, channel + " is now hosting " + target) && EndsWith(r, ".")
    ensures target != "-" && viewers == "-" ==> r == channel + " is now hosting " + target + "."
    ensures target != "-" && viewers != "-" ==>
      r == channel + " is now hosting " + target + " for " + viewers
           + (if CompareTo(viewers, "1") > 0 then " viewers." else " viewer.")
  {
    if target == "-" then "Exited host mode."
    else
      var content := channel + " is now hosting " + target;
      var viewCount :=
        if viewers == "-" then "."
        else if CompareTo(viewers, "1") > 0 then " for " + viewers + " viewers."
        else " for " + viewers + " viewer.";
      content + viewCount
  }

  /**
   * For a viewer count written in decimal, the lexicographic comparison with
   * "1" picks the plural exactly for two or more viewers.
   */
  lemma PluralIffAtLeastTwo(n: nat)
    ensures CompareTo(NatToString(n), "1") > 0 <==> n >= 2
  {
    var s := NatToString(n);
    if n < 10 {
      assert s == [DigitChar(n)];
    } else {
      assert |s| >= 2 && s[0] != '0' && IsDigit(s[0]);
      if s[0] == '1' {
        assert CompareTo(s, "1") == CompareTo(s[1..], "1"[1..]);
        assert "1"[1..] == [];
      }
    }
  }

  /** The hosting announcement names the count with the right number. */
  lemma HostingAnnouncement(channel: string, target: string, n: nat)
    requires target != "-"
    ensures HostingContent(channel, target, NatToString(n))
         == channel + " is now hosting " + target + " for " + NatToString(n) + (if n >= 2 then " viewers." else " viewer.")
  {
    PluralIffAtLeastTwo(n);
    assert NatToString(n) != "-" by {
      assert IsDigit(NatToString(n)[0]);
    }
  }

  /**
   * The message onNewSubscriber enqueues, None when it returns early: on the
   * main channel, a "subscribed!" line that addNewSubscriber accepted is not
   * shown; any other line is shown with an extra, marking it a repeat.
   */
  function NewSubscriberMessage(channel: string, line: string, isMainChannel: bool, added: bool): (r: Option<Message>)
    ensures r.None? <==> isMainChannel && EndsWith(line, "subscribed!") && added
    ensures r.Some? ==> r.value.kind == SubNotify && r.value.channel == Some(channel) && r.value.content == Some(line)
  {
    var m := Message(SubNotify, Some(channel), None, Some(line), NoExtra);
    if isMainChannel then
      if EndsWith(line, "subscribed!") then
        if added then None else Some(m)
      else Some(m.(extra := Flag(false)))
    else Some(m)
  }

  /**
   * The pane's tally counts a shown subscriber announcement unless it is a
   * renewal line on the main channel: a renewal never raises the count.
   */
  lemma RenewalsNotCounted(channel: string, line: string, isMainChannel: bool, added: bool)
    ensures var r := NewSubscriberMessage(channel, line, isMainChannel, added);
      r.Some? ==> (ChatPanes.CountsAsNewSub(ChatLayout.Subscriber, r.value) <==> !isMainChannel || EndsWith(line, "subscribed!"))
  {
  }

  /** The BAN_NOTIFY of a cleared chat (IRCViewer.java:138-140) */
  function ClearChatNotice(channel: string, actuallyClearChat: bool): (m: Message)
    ensures m.kind == BanNotify && m.channel == Some(channel) && m.content.Some?
    ensures StartsWith(m.content.value, "The chat was cleared by a moderator")
    ensures EndsWith(m.content.value, " (Prevented by Botnak).") <==> actuallyClearChat
  {
    var suffix := if actuallyClearChat then " (Prevented by Botnak)." else ".";
    var text := "The chat was cleared by a moderator" + suffix;
    assert !actuallyClearChat ==> text[|text| - 2] == 'r' != " (Prevented by Botnak)."[21];
    Message(BanNotify, Some(channel), None, Some(text), NoExtra)
  }

  // ---------------------------------------------------------------------------
  // onRoomstate (IRCViewer.java:156-172)
  // ---------------------------------------------------------------------------

  /** GUIMain.updateSubsOnly / updateSlowMode with the tag's value */
  datatype RoomUpdate = SubsOnly(value: string) | SlowMode(value: string)

  /** The update one `key=value` field dispatches, if any */
  function PartUpdate(part: string): Option<RoomUpdate> {
    var pair := Split(part, '=');
    if |pair| <= 1 then None
    else
      var key := ToLower(pair[0]);
      if EqualsIgnoreCase("subs-only", key) then Some(SubsOnly(pair[1]))
      else if EqualsIgnoreCase("slow", key) then Some(SlowMode(pair[1]))
      else None
  }

  /** The updates of the fields, in order */
  function UpdatesOf(parts: seq<string>): seq<RoomUpdate>
    decreases |parts|
  {
    if parts == [] then []
    else
      var last := PartUpdate(parts[|parts| - 1]);
      UpdatesOf(parts[..|parts| - 1]) + (if last.Some? then [last.value] else [])
  }

  /** One more field adds its own update, if any, at the end. */
  lemma UpdatesOfPrefix(parts: seq<string>, i: int)
    requires 0 <= i < |parts|
    ensures UpdatesOf(parts[..i + 1]) == UpdatesOf(parts[..i]) + (if PartUpdate(parts[i]).Some? then [PartUpdate(parts[i]).value] else [])
  {
    assert parts[..i + 1][..i] == parts[..i] && parts[..i + 1][i] == parts[i];
  }

  /** The updates onRoomstate dispatches for the tags of the main channel; None where substring throws */
  function RoomstateUpdates(tags: string): Option<seq<RoomUpdate>> {
    if tags == [] then None else Some(UpdatesOf(Split(tags[1..], ';')))
  }

  /** One `key=value` field with a non-empty value dispatches by its key, ignoring case. */
  lemma PartUpdateOfPair(key: string, value: string)
    requires '=' !in key && '=' !in value && value != []
    ensures PartUpdate(key + "=" + value) ==
      if EqualsIgnoreCase(key, "subs-only") then Some(SubsOnly(value))
      else if EqualsIgnoreCase(key, "slow") then Some(SlowMode(value))
      else None
  {
    var part := key + "=" + value;
    assert part[|key|] == '=';
    FieldsAtSeparator(key, value, '=');
    FieldsNoSeparator(value, '=');
    assert Split(part, '=') == [key, value];
    ToLowerIdempotent(key);
  }

  /**
   * Fields without a '=', or with a non-empty key and an empty value, dispatch
   * nothing, and reading their key does not throw.
   */
  lemma PartWithoutValue(part: string)
    requires '=' !in part || (|part| > 1 && part[|part| - 1] == '=' && '=' !in part[..|part| - 1])
    ensures PartUpdate(part) == None
    ensures PartAsWritten(part) == (None, false)
  {
    if '=' in part {
      var key := part[..|part| - 1];
      assert part == key + ['='] + [];
      FieldsAtSeparator(key, [], '=');
      assert Fields([], '=') == [""];
      assert Split(part, '=') == DropTrailingEmpty([key, ""]);
      assert DropTrailingEmpty([key, ""]) == DropTrailingEmpty([key]) == [key];
    }
  }

  /** Every dispatched update comes from one of the fields. */
  lemma {:induction false} UpdatesFromFields(parts: seq<string>)
    ensures forall u :: u in UpdatesOf(parts) ==> exists i :: 0 <= i < |parts| && PartUpdate(parts[i]) == Some(u)
    decreases |parts|
  {
    if parts != [] {
      var init := parts[..|parts| - 1];
      UpdatesFromFields(init);
      forall u | u in UpdatesOf(parts)
        ensures exists i :: 0 <= i < |parts| && PartUpdate(parts[i]) == Some(u)
      {
        if u in UpdatesOf(init) {
          var i :| 0 <= i < |init| && PartUpdate(init[i]) == Some(u);
          assert parts[i] == init[i];
        } else {
          assert PartUpdate(parts[|parts| - 1]) == Some(u);
        }
      }
    }
  }

  /**
   * One field as onRoomstate's loop reads it: the update it dispatches, and
   * whether reading keyValPairs[0] throws. That happens exactly for a field
   * made only of '=', which splits into no strings at all.
   */
  function PartAsWritten(part: string): (r: (Option<RoomUpdate>, bool))
    ensures r.1 <==> part != [] && forall j :: 0 <= j < |part| ==> part[j] == '='
    ensures r.1 ==> r.0.None?
    ensures !r.1 ==> r.0 == PartUpdate(part)
  {
    SplitEmptyIffAllSeparators(part, '=');
    if |Split(part, '=')| == 0 then (None, true) else (PartUpdate(part), false)
  }

  /**
   * The loop as written over the fields: the updates dispatched, in order, and
   * whether a field threw, which ends the loop and leaves the fields after it
   * undispatched.
   */
  function UpdatesAsWritten(parts: seq<string>): (seq<RoomUpdate>, bool)
    decreases |parts|
  {
    if parts == [] then ([], false)
    else
      var init := UpdatesAsWritten(parts[..|parts| - 1]);
      var last := PartAsWritten(parts[|parts| - 1]);
      if init.1 then init
      else if last.1 then (init.0, true)
      else (init.0 + (if last.0.Some? then [last.0.value] else []), false)
  }

  /** One more field, unless an earlier one threw */
  lemma AsWrittenPrefix(parts: seq<string>, i: int)
    requires 0 <= i < |parts|
    ensures var init := UpdatesAsWritten(parts[..i]);
      var last := PartAsWritten(parts[i]);
      UpdatesAsWritten(parts[..i + 1]) ==
        if init.1 then init
        else if last.1 then (init.0, true)
        else (init.0 + (if last.0.Some? then [last.0.value] else []), false)
  {
    assert parts[..i + 1][..i] == parts[..i] && parts[..i + 1][i] == parts[i];
  }

  /** Once a field has thrown, the fields after it change nothing. */
  lemma {:induction false} AsWrittenStopsAtThrow(parts: seq<string>, i: int)
    requires 0 <= i <= |parts|
    requires i == |parts| || UpdatesAsWritten(parts[..i]).1
    ensures UpdatesAsWritten(parts) == UpdatesAsWritten(parts[..i])
    decreases |parts|
  {
    if i == |parts| {
      assert parts[..i] == parts;
    } else {
      var init := parts[..|parts| - 1];
      assert init[..i] == parts[..i];
      AsWrittenStopsAtThrow(init, i);
    }
  }

  /** The loop as written throws exactly when one of the fields is made only of '='. */
  lemma {:induction false} AsWrittenThrowsIff(parts: seq<string>)
    ensures UpdatesAsWritten(parts).1 <==> exists i :: 0 <= i < |parts| && PartAsWritten(parts[i]).1
    decreases |parts|
  {
    if parts != [] {
      var init := parts[..|parts| - 1];
      AsWrittenThrowsIff(init);
      if UpdatesAsWritten(init).1 {
        var i :| 0 <= i < |init| && PartAsWritten(init[i]).1;
        assert parts[i] == init[i];
      } else if PartAsWritten(parts[|parts| - 1]).1 {
        assert UpdatesAsWritten(parts).1;
      } else {
        assert !UpdatesAsWritten(parts).1;
        forall i | 0 <= i < |parts|
          ensures !PartAsWritten(parts[i]).1
        {
          if i < |init| {
            assert parts[i] == init[i];
          }
        }
      }
    }
  }

  /**
   * onRoomstate for the main channel as written: the updates it dispatches
   * and whether it throws, either at the substring of empty tags or at a
   * field made only of '='.
   */
  function RoomstateAsWritten(tags: string): (r: (seq<RoomUpdate>, bool))
    ensures tags == [] ==> r == ([], true)
    ensures tags != [] ==>
      (r.1 <==> exists i :: 0 <= i < |Split(tags[1..], ';')| && PartAsWritten(Split(tags[1..], ';')[i]).1)
    ensures !r.1 ==> RoomstateUpdates(tags) == Some(r.0)
  {
    if tags == [] then ([], true)
    else
      var parts := Split(tags[1..], ';');
      AsWrittenThrowsIff(parts);
      var r := UpdatesAsWritten(parts);
      if r.1 then r
      else
        AsWrittenAgrees(parts);
        r
  }

  /**
   * The discrepancy: with tags "@=;slow=5" the loop as written throws on the
   * first field and slow mode is never updated ...
   */
  lemma RoomstateAsWrittenThrows()
    ensures RoomstateAsWritten("@=;slow=5") == ([], true)
  {
    assert "@=;slow=5"[1..] == "=;slow=5";
    SplitExample();
    AllSeparatorsSplit();
    var parts := ["=", "slow=5"];
    assert parts[..1] == ["="] && ["="][..0] == [];
    assert UpdatesAsWritten(["="]) == ([], true);
  }

  /** ... while the length check was evidently meant to skip that field and go on to "slow=5". */
  lemma RoomstateSkipsEmptyField()
    ensures RoomstateUpdates("@=;slow=5") == Some([SlowMode("5")])
  {
    var tags := "@=;slow=5";
    assert tags[1..] == "=;slow=5";
    SplitExample();
    TwoFieldUpdates();
  }

  lemma TwoFieldUpdates()
    ensures UpdatesOf(["=", "slow=5"]) == [SlowMode("5")]
  {
    var parts := ["=", "slow=5"];
    AllSeparatorsSplit();
    PartUpdateOfPair("slow", "5");
    assert "slow" + "=" + "5" == "slow=5";
    assert parts[..1] == ["="] && ["="][..0] == [];
    assert UpdatesOf(["="]) == [];
  }

  lemma SplitExample()
    ensures Split("=;slow=5", ';') == ["=", "slow=5"]
  {
    var tags, last := "=;slow=5", "slow=5";
    assert tags == "=" + [';'] + last;
    assert ';' !in last by {
      assert forall i :: 0 <= i < |last| ==> last[i] != ';';
    }
    FieldsAtSeparator("=", last, ';');
    FieldsNoSeparator(last, ';');
    assert Fields(tags, ';') == ["=", last];
    assert tags[1] == ';';
  }

  lemma AllSeparatorsSplit()
    ensures Split("=", '=') == []
    ensures PartUpdate("=") == None
  {
    assert "=" == [] + ['='] + [];
    FieldsAtSeparator([], [], '=');
    assert DropTrailingEmpty(["", ""]) == [];
  }

  /** Without an all-'=' field the loop as written and the corrected rule agree. */
  lemma {:induction false} AsWrittenAgrees(parts: seq<string>)
    requires forall i :: 0 <= i < |parts| ==> !PartAsWritten(parts[i]).1
    ensures UpdatesAsWritten(parts) == (UpdatesOf(parts), false)
    decreases |parts|
  {
    if parts != [] {
      var init := parts[..|parts| - 1];
      assert forall i :: 0 <= i < |init| ==> init[i] == parts[i];
      AsWrittenAgrees(init);
    }
  }

  // ---------------------------------------------------------------------------
  // The viewer
  // ---------------------------------------------------------------------------

  class IrcViewer {
    /** MessageQueue, oldest first */
    var queue: seq<Message>
    /** The account manager's task queue, oldest first */
    var tasks: seq<Task>
    /** GUIMain.channelSet */
    var channelSet: set<string>
    /** BanQueue: names to ban, per channel */
    var banQueue: map<string, set<string>>
    /** The subscriber manager's records: name to whether the subscription is active */
    var subscribers: map<string, bool>
    /** The name of Settings.accountManager's user account; None when there is none */
    var userAccount: Option<string>
    /** Whether GUIMain.viewer still refers to a viewer */
    var viewerOpen: bool
    /** Reconnect threads created by onDisconnect */
    var reconnects: nat
    /** The updates of the subs-only and slow settings, oldest first */
    var roomUpdates: seq<RoomUpdate>

    /** Every channel in the set carries its '#'. */
    ghost predicate Valid()
      reads this
    {
      forall c :: c in channelSet ==> StartsWith(c, "#")
    }

    constructor (account: Option<string>)
      ensures Valid()
      ensures queue == [] && tasks == [] && channelSet == {} && banQueue == map[] && subscribers == map[]
      ensures userAccount == account && viewerOpen && reconnects == 0 && roomUpdates == []
    {
      queue := [];
      tasks := [];
      channelSet := {};
      banQueue := map[];
      subscribers := map[];
      userAccount := account;
      viewerOpen := true;
      reconnects := 0;
      roomUpdates := [];
    }

    /** doConnect: a JOIN task for the channel, which joins the channel set */
    method DoConnect(channel: string)
      requires Valid()
      modifies this`tasks, this`channelSet
      ensures Valid()
      ensures tasks == old(tasks) + [Task(JoinChannel, Some(ChannelName(channel)))]
      ensures channelSet == old(channelSet) + {ChannelName(channel)}
    {
      var name := ChannelName(channel);
      tasks := tasks + [Task(JoinChannel, Some(name))];
      if name !in channelSet {
        channelSet := channelSet + {name};
      }
    }

    /** doLeave: a LEAVE task for the channel, which leaves the channel set */
    method DoLeave(channel: string)
      requires Valid()
      modifies this`tasks, this`channelSet
      ensures Valid()
      ensures tasks == old(tasks) + [Task(LeaveChannel, Some(ChannelName(channel)))]
      ensures channelSet == old(channelSet) - {ChannelName(channel)}
    {
      var name := ChannelName(channel);
      tasks := tasks + [Task(LeaveChannel, Some(name))];
      channelSet := channelSet - {name};
    }

    /**
     * close: a DISCONNECT task without channel, the account forgotten when
     * asked, and the viewer dropped. Without an account, reading its name for
     * the log message throws first and nothing changes (`ok` is false).
     */
    method Close(forget: bool) returns (ok: bool)
      modifies this`tasks, this`userAccount, this`viewerOpen
      ensures ok <==> old(userAccount).Some?
      ensures !ok ==> unchanged(this)
      ensures ok ==> tasks == old(tasks) + [Task(Disconnect, None)]
      ensures ok ==> userAccount == (if forget then None else old(userAccount)) && !viewerOpen
    {
      if userAccount.None? {
        return false;
      }
      tasks := tasks + [Task(Disconnect, None)];
      if forget {
        userAccount := None;
      }
      viewerOpen := false;
      ok := true;
    }

    /** onMessage: a chat message */
    method OnMessage(channel: string, sender: string, message: string)
      modifies this`queue
      ensures queue == old(queue) + [Message(NormalMessage, Some(channel), Some(sender), Some(message), NoExtra)]
    {
      queue := queue + [Message(NormalMessage, Some(channel), Some(sender), Some(message), NoExtra)];
    }

    /** onAction: a /me message (note the sender comes first) */
    method OnAction(sender: string, channel: string, action: string)
      modifies this`queue
      ensures queue == old(queue) + [Message(ActionMessage, Some(channel), Some(sender), Some(action), NoExtra)]
    {
      queue := queue + [Message(ActionMessage, Some(channel), Some(sender), Some(action), NoExtra)];
    }

    /** onWhisper: a whisper without channel, the receiver in its extra */
    method OnWhisper(user: string, receiver: string, contents: string)
      modifies this`queue
      ensures queue == old(queue) + [Message(WhisperMessage, None, Some(user), Some(contents), Receiver(receiver))]
    {
      queue := queue + [Message(WhisperMessage, None, Some(user), Some(contents), Receiver(receiver))];
    }

    /** onJTVMessage: a notice from the server */
    method OnJtvMessage(channel: string, line: string, tags: string)
      modifies this`queue
      ensures queue == old(queue) + [Message(JtvNotify, Some(channel), None, Some(line), NoExtra)]
    {
      queue := queue + [Message(JtvNotify, Some(channel), None, Some(line), NoExtra)];
    }

    /**
     * onBeingHosted: a HOSTED_NOTIFY on the account's own channel. Without an
     * account the name lookup throws and nothing is enqueued.
     */
    method OnBeingHosted(line: string) returns (ok: bool)
      modifies this`queue
      ensures ok <==> userAccount.Some?
      ensures ok ==> queue == old(queue) + [Message(HostedNotify, userAccount, None, Some(line), NoExtra)]
      ensures !ok ==> queue == old(queue)
    {
      if userAccount.None? {
        return false;
      }
      queue := queue + [Message(HostedNotify, userAccount, None, Some(line), NoExtra)];
      ok := true;
    }

    /** onHosting: a HOSTING_NOTIFY for the channel */
    method OnHosting(channel: string, target: string, viewers: string)
      modifies this`queue
      ensures queue == old(queue) + [Message(HostingNotify, Some(channel), None, Some(HostingContent(channel, target, viewers)), NoExtra)]
    {
      queue := queue + [Message(HostingNotify, Some(channel), None, Some(HostingContent(channel, target, viewers)), NoExtra)];
    }

    /**
     * onNewSubscriber. On the main channel a "subscribed!" line goes to
     * addNewSubscriber, which answers whether it took the subscriber in (and
     * updates the records); any other line re-activates an inactive record.
     */
    method OnNewSubscriber(channel: string, line: string, newSub: string, isMainChannel: bool,
                           addNewSubscriber: (string, string, map<string, bool>) -> (bool, map<string, bool>))
      modifies this`queue, this`subscribers
      ensures var isNew := isMainChannel && EndsWith(line, "subscribed!");
        var answer := addNewSubscriber(newSub, channel, old(subscribers));
        && subscribers == (if isNew then answer.1
                           else if isMainChannel && newSub in old(subscribers) then old(subscribers)[newSub := true]
                           else old(subscribers))
        && var shown := NewSubscriberMessage(channel, line, isMainChannel, isNew && answer.0);
           queue == old(queue) + (if shown.Some? then [shown.value] else [])
    {
      var m := Message(SubNotify, Some(channel), None, Some(line), NoExtra);
      if isMainChannel {
        if EndsWith(line, "subscribed!") {
          var answer := addNewSubscriber(newSub, channel, subscribers);
          subscribers := answer.1;
          if answer.0 {
            return;
          }
        } else {
          if newSub in subscribers {
            if !subscribers[newSub] {
              subscribers := subscribers[newSub := true];
            }
          }
          m := m.(extra := Flag(false));
        }
      }
      queue := queue + [m];
    }

    /**
     * onDisconnect: a reconnect is scheduled only when the program is not
     * shutting down, the account manager still has a viewer connection and
     * auto-reconnect is on.
     */
    method OnDisconnect(shutDown: bool, hasViewer: bool, autoReconnect: bool) returns (scheduled: bool)
      modifies this`reconnects
      ensures scheduled <==> !shutDown && hasViewer && autoReconnect
      ensures reconnects == old(reconnects) + (if scheduled then 1 else 0)
    {
      scheduled := false;
      if !shutDown && hasViewer {
        if autoReconnect {
          reconnects := reconnects + 1;
          scheduled := true;
        }
      }
    }

    /**
     * onClearChat: a named user is queued for a ban in the channel and nothing
     * is shown; a cleared chat is announced once, and when actuallyClearChat is
     * on the pane is asked to clean up (`clearPane`).
     */
    method OnClearChat(channel: string, name: Option<string>, actuallyClearChat: bool) returns (clearPane: bool)
      modifies this`queue, this`banQueue
      ensures name.Some? ==>
        && banQueue == old(banQueue)[channel := (if channel in old(banQueue) then old(banQueue)[channel] else {}) + {name.value}]
        && queue == old(queue) && !clearPane
      ensures name.None? ==>
        && banQueue == old(banQueue)
        && queue == old(queue) + [ClearChatNotice(channel, actuallyClearChat)]
        && clearPane == actuallyClearChat
    {
      clearPane := false;
      if name.Some? {
        var names := if channel in banQueue then banQueue[channel] else {};
        banQueue := banQueue[channel := names + {name.value}];
      } else {
        if actuallyClearChat {
          clearPane := true;
        }
        queue := queue + [ClearChatNotice(channel, actuallyClearChat)];
      }
    }

    /**
     * onRoomstate for the main channel: drop the first character of the tags,
     * then dispatch the value of each subs-only or slow field. Empty tags make
     * substring throw, and a field made only of '=' makes the read of its key
     * throw, which ends the loop (`ok` false). Fields without a value are
     * skipped.
     */
    method OnRoomstate(tags: string, isMainChannel: bool) returns (ok: bool)
      modifies this`roomUpdates
      ensures !isMainChannel ==> ok && roomUpdates == old(roomUpdates)
      ensures isMainChannel ==>
        var r := RoomstateAsWritten(tags);
        && (ok <==> !r.1)
        && roomUpdates == old(roomUpdates) + r.0
    {
      ok := true;
      if !isMainChannel {
        return;
      }
      if tags == [] {
        return false;
      }
      var parts := Split(tags[1..], ';');
      var i := 0;
      var threw := false;
      while i < |parts| && !threw
        invariant 0 <= i <= |parts|
        invariant threw == UpdatesAsWritten(parts[..i]).1
        invariant roomUpdates == old(roomUpdates) + UpdatesAsWritten(parts[..i]).0
      {
        threw := DispatchField(parts[i]);
        AsWrittenPrefix(parts, i);
        i := i + 1;
      }
      AsWrittenStopsAtThrow(parts, i);
      ok := !threw;
    }

    /**
     * The body of onRoomstate's loop for one field: split it at '=', read the
     * key (which throws when the split gives nothing), and pass the value of a
     * subs-only or slow field on.
     */
    method DispatchField(part: string) returns (threw: bool)
      modifies this`roomUpdates
      ensures var r := PartAsWritten(part);
        && threw == r.1
        && roomUpdates == old(roomUpdates) + (if r.0.Some? then [r.0.value] else [])
    {
      var keyValPairs := Split(part, '=');
      if |keyValPairs| == 0 {
        return true;
      }
      threw := false;
      var key := ToLower(keyValPairs[0]);
      if |keyValPairs| <= 1 {
        return;
      }
      var value := keyValPairs[1];
      if EqualsIgnoreCase("subs-only", key) {
        roomUpdates := roomUpdates + [SubsOnly(value)];
      } else if EqualsIgnoreCase("slow", key) {
        roomUpdates := roomUpdates + [SlowMode(value)];
      }
    }

    /** onConnect: doConnect for every channel in the set, which stays as it is */
    method OnConnect()
      requires Valid()
      modifies this`tasks, this`channelSet
      ensures Valid() && channelSet == old(channelSet)
      ensures |tasks| == |old(tasks)| + |channelSet| && tasks[..|old(tasks)|] == old(tasks)
      ensures forall t :: t in tasks[|old(tasks)|..] ==> t.kind == JoinChannel && t.channel.Some? && t.channel.value in channelSet
      ensures forall c :: c in channelSet ==> Task(JoinChannel, Some(c)) in tasks[|old(tasks)|..]
    {
      var remaining := channelSet;
      ghost var n := |tasks|;
      while remaining != {}
        invariant Valid() && channelSet == old(channelSet)
        invariant remaining <= channelSet
        invariant |tasks| == n + |channelSet| - |remaining| && tasks[..n] == old(tasks)
        invariant forall t :: t in tasks[n..] ==> t.kind == JoinChannel && t.channel.Some? && t.channel.value in channelSet - remaining
        invariant forall c :: c in channelSet - remaining ==> Task(JoinChannel, Some(c)) in tasks[n..]
        decreases |remaining|
      {
        if forall c :: c !in remaining {
          assert false;
        }
        var c :| c in remaining;
        ghost var before := tasks;
        DoConnect(c);
        assert tasks[n..] == before[n..] + [Task(JoinChannel, Some(c))];
        remaining := remaining - {c};
      }
    }
  }
}
