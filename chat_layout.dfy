/**
 * The text decisions of gui/ChatPane.java that do not touch the pane's own
 * fields: the thousands separator of `format`, the badge, separator and style
 * choices of `onMessage`, the range walk of `printMessage` and the link search
 * of `findLinks`.
 *
 * `print` only queues a runnable on the message wrapper, so printing is
 * modelled as producing a `Piece` (text and attribute set); a sequence of
 * pieces is what the wrapper will insert into the document, in order.
 */
module ChatLayout {

  import opened Wrappers
  import opened JavaText

  /** face.IconEnum: the badges shown before a name and the notification icons */
  datatype Badge =
    | Broadcaster
    | Mod
    | GlobalMod
    | Donor(tier: int)
    | Staff
    | Admin
    | Subscriber
    | ExSubscriber
    | Turbo

  /** The attribute sets text is printed with */
  datatype Style =
    | NoStyle                                       // null
    | Norm                                          // GUIMain.norm
    | UserName                                      // getUserSet(u), with name faces applied
    | UserColor                                     // the copy of the user set taken before name faces
    | Keyword                                       // Utils.getSetForKeyword(message)
    | Link(url: string)                             // Utils.URLStyle(url)
    | IconAttrs(badge: Badge, channel: Option<string>) // the icon set insertIcon builds
    | Face(name: string)                            // an emote style chosen by FaceManager

  datatype Piece = Piece(text: string, style: Style)

  /** The document text a sequence of pieces inserts */
  function Concat(pieces: seq<Piece>): string {
    if pieces == [] then "" else pieces[0].text + Concat(pieces[1..])
  }

  lemma {:induction false} ConcatAppend(a: seq<Piece>, b: seq<Piece>)
    ensures Concat(a + b) == Concat(a) + Concat(b)
  {
    if a == [] {
      assert a + b == b;
    } else {
      assert (a + b)[0] == a[0] && (a + b)[1..] == a[1..] + b;
      ConcatAppend(a[1..], b);
    }
  }

  // ---------------------------------------------------------------------------
  // format (ChatPane.java:102-111)
  // ---------------------------------------------------------------------------

  /** Groups of three characters, each preceded by a comma */
  function CommaGroups(u: string): string
    requires |u| % 3 == 0
    decreases |u|
  {
    if u == [] then [] else [','] + u[..3] + CommaGroups(u[3..])
  }

  /** The groups of three that CommaGroups separates */
  function Chunks(u: string): (r: seq<string>)
    requires |u| % 3 == 0
    ensures |r| == |u| / 3
    ensures forall i :: 0 <= i < |r| ==> |r[i]| == 3
    decreases |u|
  {
    if u == [] then [] else [u[..3]] + Chunks(u[3..])
  }

  /** Length of the leading group: between 1 and 3 characters */
  function HeadLength(n: int): int {
    (n - 1) % 3 + 1
  }

  /** A string with a comma before every third character counted from the right */
  function Grouped(s: string): string {
    if |s| < 4 then s
    else
      assert (|s| - HeadLength(|s|)) % 3 == 0;
      s[..HeadLength(|s|)] + CommaGroups(s[HeadLength(|s|)..])
  }

  /**
   * ChatPane.format: strings of fewer than four characters are kept; longer
   * ones get a comma inserted every three characters, from the right.
   */
  method Format(t: string) returns (s: string)
    ensures s == Grouped(t)
  {
    s := t;
    var length := |t|;
    if length < 4 {
      return;
    }
    var i := length - 3;
    while i > 0
      invariant -2 <= i <= length - 3
      invariant (length - (i + 3)) % 3 == 0
      invariant s == t[..i + 3] + CommaGroups(t[i + 3..])
    {
      InsertComma(t, i, s);
      s := s[..i] + "," + s[i..];
      i := i - 3;
    }
    assert i + 3 == HeadLength(length);
  }

  /** One step of format's loop: a comma before the next group to the left */
  lemma InsertComma(t: string, i: int, s: string)
    requires 0 < i && i + 3 <= |t| && (|t| - (i + 3)) % 3 == 0
    requires s == t[..i + 3] + CommaGroups(t[i + 3..])
    ensures s[..i] + "," + s[i..] == t[..i] + CommaGroups(t[i..])
  {
    assert t[i..][..3] == t[i..i + 3] && t[i..][3..] == t[i + 3..];
    assert CommaGroups(t[i..]) == [','] + t[i..i + 3] + CommaGroups(t[i + 3..]);
    assert t[..i + 3] == t[..i] + t[i..i + 3];
    assert s[..i] == t[..i];
    assert s[i..] == t[i..i + 3] + CommaGroups(t[i + 3..]);
  }

  lemma {:induction false} StripCommaGroups(u: string)
    requires |u| % 3 == 0 && ',' !in u
    ensures RemoveAll(CommaGroups(u), ',') == u
    decreases |u|
  {
    if u != [] {
      StripCommaGroups(u[3..]);
      RemoveAllAppend([','] + u[..3], CommaGroups(u[3..]), ',');
      RemoveAllAppend([','], u[..3], ',');
      RemoveAllAbsent(u[..3], ',');
      assert u[..3] + u[3..] == u;
    }
  }

  lemma {:induction false} FieldsOfCommaGroups(x: string, u: string)
    requires |u| % 3 == 0 && ',' !in u && ',' !in x
    ensures Fields(x + CommaGroups(u), ',') == [x] + Chunks(u)
    decreases |u|
  {
    if u == [] {
      assert x + CommaGroups(u) == x;
      FieldsNoSeparator(x, ',');
    } else {
      FieldsOfCommaGroups(u[..3], u[3..]);
      assert x + CommaGroups(u) == x + [','] + (u[..3] + CommaGroups(u[3..]));
      FieldsAtSeparator(x, u[..3] + CommaGroups(u[3..]), ',');
    }
  }

  /**
   * What format promises: deleting the commas gives the input back, and the
   * commas cut a non-empty input into a leading group of one to three
   * characters followed by groups of exactly three; short inputs are unchanged.
   */
  lemma GroupedSpec(s: string)
    requires ',' !in s
    ensures RemoveAll(Grouped(s), ',') == s
    ensures |s| < 4 ==> Grouped(s) == s
    ensures |s| >= 1 ==>
      var f := Fields(Grouped(s), ',');
      && 1 <= |f[0]| <= 3
      && |f| == (|s| + 2) / 3
      && (forall i :: 1 <= i < |f| ==> |f[i]| == 3)
  {
    if |s| < 4 {
      RemoveAllAbsent(s, ',');
      FieldsNoSeparator(s, ',');
    } else {
      var h := HeadLength(|s|);
      assert (|s| - h) % 3 == 0;
      StripCommaGroups(s[h..]);
      RemoveAllAppend(s[..h], CommaGroups(s[h..]), ',');
      RemoveAllAbsent(s[..h], ',');
      assert s[..h] + s[h..] == s;
      FieldsOfCommaGroups(s[..h], s[h..]);
    }
  }

  // ---------------------------------------------------------------------------
  // onMessage: badges, name separator and body style (ChatPane.java:343-404)
  // ---------------------------------------------------------------------------

  /** The flags of lib.pircbot.User that onMessage reads, for the message's channel */
  datatype UserFlags = UserFlags(
    isOp: bool,
    isGlobalMod: bool,
    isDonor: bool,
    donorTier: int,
    isStaff: bool,
    isAdmin: bool,
    isSubscriber: bool,
    isTurbo: bool)

  /** The order in which onMessage inserts badges */
  function Rank(b: Badge): int {
    match b
    case Broadcaster => 0
    case Mod => 1
    case GlobalMod => 2
    case Donor(_) => 3
    case Staff => 4
    case Admin => 5
    case Subscriber => 6
    case ExSubscriber => 6
    case Turbo => 7
  }

  /**
   * The badges onMessage considers, in the order it inserts them, each paired
   * with whether it is inserted. `subscriberActive` is the main channel's
   * subscriber record for the sender (None when there is none).
   */
  function BadgeSlots(channel: string, sender: string, u: UserFlags, showDonorIcons: bool,
                      isMainChannel: bool, subscriberActive: Option<bool>): seq<(Badge, bool)>
    requires |channel| >= 1
  {
    var owner := channel[1..];
    var name := ToLower(sender);
    [ (Broadcaster, owner == name),
      (Mod, u.isOp && owner != name && !u.isStaff && !u.isAdmin && !u.isGlobalMod),
      (GlobalMod, u.isGlobalMod),
      (Donor(u.donorTier), showDonorIcons && u.isDonor),
      (Staff, u.isStaff),
      (Admin, u.isAdmin),
      (if u.isSubscriber then Subscriber else ExSubscriber,
       u.isSubscriber || (isMainChannel && subscriberActive == Some(false))),
      (Turbo, u.isTurbo) ]
  }

  /** The badges of the slots that are inserted, in slot order */
  function Inserted(slots: seq<(Badge, bool)>): seq<Badge>
  {
    if slots == [] then []
    else (if slots[0].1 then [slots[0].0] else []) + Inserted(slots[1..])
  }

  /** A badge is inserted exactly when some slot holds it and is on. */
  lemma {:induction false} InsertedMember(slots: seq<(Badge, bool)>, b: Badge)
    ensures b in Inserted(slots) <==> exists i :: 0 <= i < |slots| && slots[i] == (b, true)
  {
    if slots != [] {
      var rest := slots[1..];
      InsertedMember(rest, b);
      if exists i :: 0 <= i < |rest| && rest[i] == (b, true) {
        var i :| 0 <= i < |rest| && rest[i] == (b, true);
        assert slots[i + 1] == (b, true);
      }
      if exists i :: 0 <= i < |slots| && slots[i] == (b, true) {
        var i :| 0 <= i < |slots| && slots[i] == (b, true);
        if i > 0 {
          assert rest[i - 1] == (b, true);
        }
      }
    }
  }

  /** Ranks strictly increase along the sequence. */
  ghost predicate Increasing(r: seq<Badge>) {
    forall i, j :: 0 <= i < j < |r| ==> Rank(r[i]) < Rank(r[j])
  }

  /** Slots in strictly increasing rank give badges in strictly increasing rank. */
  lemma {:induction false} InsertedInOrder(slots: seq<(Badge, bool)>)
    requires forall i, j :: 0 <= i < j < |slots| ==> Rank(slots[i].0) < Rank(slots[j].0)
    ensures Increasing(Inserted(slots))
  {
    if slots != [] {
      var rest := slots[1..];
      InsertedInOrder(rest);
      var tail := Inserted(rest);
      var r := Inserted(slots);
      if slots[0].1 {
        assert r == [slots[0].0] + tail;
        forall i, j | 0 <= i < j < |r|
          ensures Rank(r[i]) < Rank(r[j])
        {
          assert r[j] == tail[j - 1];
          if i > 0 {
            assert r[i] == tail[i - 1];
          } else {
            InsertedMember(rest, tail[j - 1]);
            assert tail[j - 1] in tail;
            var k :| 0 <= k < |rest| && rest[k] == (tail[j - 1], true);
            assert slots[k + 1] == rest[k];
          }
        }
      } else {
        assert r == tail;
      }
    }
  }

  /** A badge that has exactly one slot is inserted exactly when that slot says so. */
  lemma OnlySlot(slots: seq<(Badge, bool)>, k: int, b: Badge)
    requires 0 <= k < |slots| && slots[k].0 == b
    requires forall i :: 0 <= i < |slots| && i != k ==> slots[i].0 != b
    ensures b in Inserted(slots) <==> slots[k].1
  {
    InsertedMember(slots, b);
    if b in Inserted(slots) {
      var i :| 0 <= i < |slots| && slots[i] == (b, true);
    }
  }

  /** A badge without a slot is never inserted. */
  lemma NoSlot(slots: seq<(Badge, bool)>, b: Badge)
    requires forall i :: 0 <= i < |slots| ==> slots[i].0 != b
    ensures b !in Inserted(slots)
  {
    InsertedMember(slots, b);
  }

  /** The badges onMessage inserts before the sender's name, in insertion order */
  function Badges(channel: string, sender: string, u: UserFlags, showDonorIcons: bool,
                  isMainChannel: bool, subscriberActive: Option<bool>): seq<Badge>
    requires |channel| >= 1
  {
    Inserted(BadgeSlots(channel, sender, u, showDonorIcons, isMainChannel, subscriberActive))
  }

  /**
   * The role badges: the broadcaster's for the channel owner, the moderator's
   * only for an operator who is not the owner, staff, admin or a global
   * moderator, and the donor's only when donor icons are on.
   */
  lemma BadgesForRoles(channel: string, sender: string, u: UserFlags, showDonorIcons: bool,
                       isMainChannel: bool, subscriberActive: Option<bool>)
    requires |channel| >= 1
    ensures var r := Badges(channel, sender, u, showDonorIcons, isMainChannel, subscriberActive);
      && (Broadcaster in r <==> channel[1..] == ToLower(sender))
      && (Mod in r <==> u.isOp && channel[1..] != ToLower(sender) && !u.isStaff && !u.isAdmin && !u.isGlobalMod)
      && (GlobalMod in r <==> u.isGlobalMod)
      && (Donor(u.donorTier) in r <==> showDonorIcons && u.isDonor)
      && (Staff in r <==> u.isStaff)
      && (Admin in r <==> u.isAdmin)
  {
    var slots := BadgeSlots(channel, sender, u, showDonorIcons, isMainChannel, subscriberActive);
    OnlySlot(slots, 0, Broadcaster);
    OnlySlot(slots, 1, Mod);
    OnlySlot(slots, 2, GlobalMod);
    OnlySlot(slots, 3, Donor(u.donorTier));
    OnlySlot(slots, 4, Staff);
    OnlySlot(slots, 5, Admin);
  }

  /**
   * The subscription badges: the subscriber's for a subscriber, the
   * ex-subscriber's only in the main channel for a recorded, inactive
   * subscriber who is no longer subscribed, and turbo.
   */
  lemma BadgesForSubscription(channel: string, sender: string, u: UserFlags, showDonorIcons: bool,
                              isMainChannel: bool, subscriberActive: Option<bool>)
    requires |channel| >= 1
    ensures var r := Badges(channel, sender, u, showDonorIcons, isMainChannel, subscriberActive);
      && (Subscriber in r <==> u.isSubscriber)
      && (ExSubscriber in r <==> !u.isSubscriber && isMainChannel && subscriberActive == Some(false))
      && (Turbo in r <==> u.isTurbo)
  {
    var slots := BadgeSlots(channel, sender, u, showDonorIcons, isMainChannel, subscriberActive);
    OnlySlot(slots, 7, Turbo);
    if u.isSubscriber {
      OnlySlot(slots, 6, Subscriber);
      NoSlot(slots, ExSubscriber);
    } else {
      NoSlot(slots, Subscriber);
      OnlySlot(slots, 6, ExSubscriber);
    }
  }

  /** The badges come in onMessage's fixed order, each kind at most once. */
  lemma BadgesOrdered(channel: string, sender: string, u: UserFlags, showDonorIcons: bool,
                      isMainChannel: bool, subscriberActive: Option<bool>)
    requires |channel| >= 1
    ensures Increasing(Badges(channel, sender, u, showDonorIcons, isMainChannel, subscriberActive))
  {
    var slots := BadgeSlots(channel, sender, u, showDonorIcons, isMainChannel, subscriberActive);
    assert forall i :: 0 <= i < |slots| ==> Rank(slots[i].0) == i;
    InsertedInOrder(slots);
  }

  /** The style of the message body (ChatPane.java:399-404) */
  function BodyStyle(mentionsKeyword: bool, isAction: bool): (r: Style)
    ensures r == Keyword <==> mentionsKeyword
    ensures r == UserColor <==> !mentionsKeyword && isAction
    ensures r == Norm <==> !mentionsKeyword && !isAction
  {
    if mentionsKeyword then Keyword else if isAction then UserColor else Norm
  }

  /** What is printed right after the sender's display name (ChatPane.java:391-397) */
  function NameSuffix(showChannel: bool, channel: string, isAction: bool): (r: Piece)
    requires |channel| >= 1
    ensures EndsWith(r.text, if isAction then " " else ": ")
    ensures showChannel ==> r.style == Norm && StartsWith(r.text, " (" + channel[1..] + ")")
    ensures !showChannel ==> r.style == UserColor && |r.text| <= 2
    ensures var sep := if isAction then " " else ": ";
      && (!showChannel ==> r == Piece(sep, UserColor))
      && (showChannel ==> r == Piece(" (" + channel[1..] + ")" + sep, Norm))
  {
    var sep := if isAction then " " else ": ";
    if showChannel then Piece(" (" + channel[1..] + ")" + sep, Norm)
    else Piece(sep, UserColor)
  }

  // ---------------------------------------------------------------------------
  // printMessage: the walk over the ranges (ChatPane.java:441-457)
  // ---------------------------------------------------------------------------

  /** TreeMap<Integer, Integer>: start of a special range to its inclusive end */
  type RangeMap = map<int, int>

  /** HashMap<Integer, SimpleAttributeSet>: start of a range to its style */
  type StyleMap = map<int, Style>

  /** Every range can be cut out with text.substring(start, end + 1). */
  ghost predicate InBounds(ranges: RangeMap, text: string) {
    forall s :: s in ranges ==> 0 <= s <= ranges[s] + 1 <= |text|
  }

  /** Each range ends before the next one starts. */
  ghost predicate Disjoint(ranges: RangeMap) {
    forall a, b :: a in ranges && b in ranges && a < b ==> ranges[a] < b
  }

  /** rangesStyle.get(start), null when absent */
  function StyleAt(styles: StyleMap, s: int): Style {
    if s in styles then styles[s] else NoStyle
  }

  /** The least element of a non-empty set of integers */
  lemma {:induction false} LeastOf(keys: set<int>) returns (k: int)
    requires keys != {}
    ensures k in keys && forall j :: j in keys ==> k <= j
    decreases |keys|
  {
    if forall y :: y !in keys {
      assert false;
    }
    var x :| x in keys;
    var others := keys - {x};
    if others == {} {
      k := x;
      forall j | j in keys
        ensures x <= j
      {
        assert j in others || j == x;
      }
    } else {
      var m := LeastOf(others);
      k := if x < m then x else m;
      forall j | j in keys
        ensures k <= j
      {
        if j != x {
          assert j in others;
        }
      }
    }
  }

  lemma HasLeast(keys: set<int>)
    requires keys != {}
    ensures exists k :: k in keys && forall j :: j in keys ==> k <= j
  {
    var k := LeastOf(keys);
  }

  /** The smallest key: the next entry of a TreeMap's ascending iteration */
  ghost function MinKey(keys: set<int>): (k: int)
    requires keys != {}
    ensures k in keys
  {
    HasLeast(keys);
    var k :| k in keys && forall j :: j in keys ==> k <= j;
    k
  }

  /**
   * The pieces printMessage prints for the ranges still to visit, having
   * printed the text up to `pos`: plain text before each range in the default
   * style, the range in its own style, and the remainder in the default style.
   */
  ghost function Walk(text: string, ranges: RangeMap, styles: StyleMap, style: Style, pos: int): seq<Piece>
    requires InBounds(ranges, text) && 0 <= pos
    decreases ranges.Keys
  {
    if ranges == map[] then
      (if pos < |text| then [Piece(text[pos..], style)] else [])
    else
      var s := MinKey(ranges.Keys);
      var e := ranges[s];
      (if s > pos then [Piece(text[pos..s], style)] else [])
      + [Piece(text[s..e + 1], StyleAt(styles, s))]
      + Walk(text, ranges - {s}, styles, style, e + 1)
  }

  /**
   * The loop of printMessage over the ranges found in `text`, in ascending
   * order of start. Without overlapping ranges, the printed pieces spell out
   * the text exactly.
   */
  method PrintMessage(text: string, ranges: RangeMap, styles: StyleMap, style: Style)
    returns (pieces: seq<Piece>)
    requires InBounds(ranges, text)
    ensures pieces == Walk(text, ranges, styles, style, 0)
    ensures Disjoint(ranges) ==> Concat(pieces) == text
  {
    pieces := [];
    var lastPrintedPos := 0;
    var rest := ranges;
    ghost var whole := Walk(text, ranges, styles, style, 0);
    while rest != map[]
      invariant 0 <= lastPrintedPos
      invariant InBounds(rest, text)
      invariant pieces + Walk(text, rest, styles, style, lastPrintedPos) == whole
      decreases rest.Keys
    {
      var start := FirstKey(rest);
      var end := rest[start];
      ghost var printed := pieces;
      if start > lastPrintedPos {
        pieces := pieces + [Piece(text[lastPrintedPos..start], style)];
      }
      pieces := pieces + [Piece(text[start..end + 1], StyleAt(styles, start))];
      PrintStep(text, rest, styles, style, lastPrintedPos, start, printed, pieces, whole);
      lastPrintedPos := end + 1;
      rest := rest - {start};
    }
    ghost var printed := pieces;
    if lastPrintedPos < |text| {
      pieces := pieces + [Piece(text[lastPrintedPos..], style)];
    }
    PrintRest(text, styles, style, lastPrintedPos, printed, pieces, whole);
    if Disjoint(ranges) {
      WalkRoundTrip(text, ranges, styles, style, 0);
    }
  }

  /** TreeMap's next entry in ascending order: the least start still to visit */
  method FirstKey(rest: RangeMap) returns (k: int)
    requires rest != map[]
    ensures k in rest && k == MinKey(rest.Keys)
  {
    HasLeast(rest.Keys);
    k :| k in rest && forall j :: j in rest ==> k <= j;
    LeastIsMin(rest.Keys, k);
  }

  /** After the loop, printMessage prints what is left of the text in the default style. */
  lemma PrintRest(text: string, styles: StyleMap, style: Style, pos: int,
                  printed: seq<Piece>, pieces: seq<Piece>, whole: seq<Piece>)
    requires 0 <= pos && printed + Walk(text, map[], styles, style, pos) == whole
    requires pieces == if pos < |text| then printed + [Piece(text[pos..], style)] else printed
    ensures pieces == whole
  {
    if pos >= |text| {
      assert printed + [] == printed;
    }
  }

  /** A least element of a set is its minimum. */
  lemma LeastIsMin(keys: set<int>, k: int)
    requires k in keys && forall j :: j in keys ==> k <= j
    ensures k == MinKey(keys)
  {
  }

  /** One iteration of printMessage's loop prints the head of the walk and leaves its tail. */
  lemma PrintStep(text: string, rest: RangeMap, styles: StyleMap, style: Style, pos: int,
                  s: int, printed: seq<Piece>, pieces: seq<Piece>, whole: seq<Piece>)
    requires InBounds(rest, text) && 0 <= pos && rest != map[]
    requires s == MinKey(rest.Keys)
    requires printed + Walk(text, rest, styles, style, pos) == whole
    requires pieces == (if s > pos then printed + [Piece(text[pos..s], style)] else printed)
                       + [Piece(text[s..rest[s] + 1], StyleAt(styles, s))]
    ensures InBounds(rest - {s}, text)
    ensures pieces + Walk(text, rest - {s}, styles, style, rest[s] + 1) == whole
  {
    var e := rest[s];
    WalkStep(text, rest, styles, style, pos);
    var plain := if s > pos then [Piece(text[pos..s], style)] else [];
    var special := [Piece(text[s..e + 1], StyleAt(styles, s))];
    var tail := Walk(text, rest - {s}, styles, style, e + 1);
    assert pieces == printed + plain + special by {
      if s <= pos {
        assert printed + plain == printed;
      }
    }
    PiecesAlgebra(printed, plain, special, tail, pieces, Walk(text, rest, styles, style, pos));
  }

  /** Appending the printed head's tail to what was printed gives the walk printed so far. */
  lemma PiecesAlgebra(printed: seq<Piece>, plain: seq<Piece>, special: seq<Piece>, tail: seq<Piece>,
                      pieces: seq<Piece>, w: seq<Piece>)
    requires pieces == printed + plain + special && w == plain + special + tail
    ensures pieces + tail == printed + w
  {
    AppendAssoc(printed, plain, special, tail);
  }

  lemma InAppend(x: Piece, a: seq<Piece>, b: seq<Piece>, c: seq<Piece>)
    ensures x in b || x in c ==> x in a + b + c
  {
  }

  lemma AppendAssoc(a: seq<Piece>, b: seq<Piece>, c: seq<Piece>, d: seq<Piece>)
    ensures a + b + c + d == a + (b + c + d)
  {
  }

  /** Removing the first range keeps the others in bounds and disjoint. */
  lemma RemoveFirstRange(text: string, ranges: RangeMap, s: int)
    requires InBounds(ranges, text) && Disjoint(ranges)
    requires ranges != map[] && s == MinKey(ranges.Keys)
    ensures InBounds(ranges - {s}, text) && Disjoint(ranges - {s})
    ensures forall k :: k in ranges - {s} ==> ranges[s] + 1 <= k
  {
    var rest := ranges - {s};
    forall k | k in rest
      ensures ranges[s] + 1 <= k
    {
      assert s < k;
    }
  }

  /** One step of the walk: the first range in ascending order, and the text before it */
  lemma WalkStep(text: string, ranges: RangeMap, styles: StyleMap, style: Style, pos: int)
    requires InBounds(ranges, text) && 0 <= pos && ranges != map[]
    ensures var s := MinKey(ranges.Keys); var e := ranges[s];
      Walk(text, ranges, styles, style, pos) ==
      (if s > pos then [Piece(text[pos..s], style)] else [])
      + [Piece(text[s..e + 1], StyleAt(styles, s))]
      + Walk(text, ranges - {s}, styles, style, e + 1)
  {
  }

  lemma ConcatStep(text: string, pos: int, s: int, e: int, plainStyle: Style, rangeStyle: Style, tail: seq<Piece>)
    requires 0 <= pos <= s <= e + 1 <= |text|
    requires Concat(tail) == text[e + 1..]
    ensures Concat((if s > pos then [Piece(text[pos..s], plainStyle)] else [])
                   + [Piece(text[s..e + 1], rangeStyle)] + tail) == text[pos..]
  {
    var special := [Piece(text[s..e + 1], rangeStyle)];
    ConcatSingle(special[0]);
    ConcatAppend(special, tail);
    if s > pos {
      var plain := [Piece(text[pos..s], plainStyle)];
      ConcatSingle(plain[0]);
      ConcatAppend(plain, special + tail);
      assert plain + special + tail == plain + (special + tail);
      assert text[s..] == text[s..e + 1] + text[e + 1..];
      assert text[pos..] == text[pos..s] + text[s..];
    } else {
      assert [] + special + tail == special + tail;
      assert text[pos..] == text[s..e + 1] + text[e + 1..];
    }
  }

  lemma ConcatSingle(p: Piece)
    ensures Concat([p]) == p.text
  {
    assert [p][1..] == [];
  }

  /** Disjoint ranges: the walk prints every character once, in order. */
  lemma {:induction false} WalkRoundTrip(text: string, ranges: RangeMap, styles: StyleMap, style: Style, pos: int)
    requires InBounds(ranges, text) && Disjoint(ranges)
    requires 0 <= pos <= |text|
    requires forall k :: k in ranges ==> pos <= k
    ensures Concat(Walk(text, ranges, styles, style, pos)) == text[pos..]
    decreases ranges.Keys
  {
    if ranges != map[] {
      var s := MinKey(ranges.Keys);
      var e := ranges[s];
      RemoveFirstRange(text, ranges, s);
      WalkRoundTrip(text, ranges - {s}, styles, style, e + 1);
      WalkStep(text, ranges, styles, style, pos);
      ConcatStep(text, pos, s, e, style, StyleAt(styles, s), Walk(text, ranges - {s}, styles, style, e + 1));
    } else if pos < |text| {
      assert Concat([Piece(text[pos..], style)]) == text[pos..];
    }
  }

  /** A range printed by the walk: its text, in the style stored for its start */
  ghost function RangePiece(text: string, ranges: RangeMap, styles: StyleMap, k: int): Piece
    requires InBounds(ranges, text) && k in ranges
  {
    Piece(text[k..ranges[k] + 1], StyleAt(styles, k))
  }

  /** Every piece the walk prints is default-styled text or one whole range in its style. */
  lemma {:induction false} WalkPiecesSound(text: string, ranges: RangeMap, styles: StyleMap, style: Style, pos: int)
    requires InBounds(ranges, text) && 0 <= pos
    ensures forall p :: p in Walk(text, ranges, styles, style, pos) ==>
      p.style == style || exists k :: k in ranges && p == RangePiece(text, ranges, styles, k)
    decreases ranges.Keys
  {
    if ranges != map[] {
      var s := MinKey(ranges.Keys);
      var e := ranges[s];
      var rest := ranges - {s};
      WalkPiecesSound(text, rest, styles, style, e + 1);
      WalkStep(text, ranges, styles, style, pos);
      var plain := if s > pos then [Piece(text[pos..s], style)] else [];
      var special := [Piece(text[s..e + 1], StyleAt(styles, s))];
      var tail := Walk(text, rest, styles, style, e + 1);
      forall p | p in Walk(text, ranges, styles, style, pos) && p.style != style
        ensures exists k :: k in ranges && p == RangePiece(text, ranges, styles, k)
      {
        InThree(p, plain, special, tail);
        if p in tail {
          var k :| k in rest && p == RangePiece(text, rest, styles, k);
          RangePieceOfRest(text, ranges, styles, s, k);
          assert k in ranges && p == RangePiece(text, ranges, styles, k);
        } else {
          assert s in ranges && p == RangePiece(text, ranges, styles, s);
        }
      }
    }
  }

  /** Removing another range does not change how a range is printed. */
  lemma RangePieceOfRest(text: string, ranges: RangeMap, styles: StyleMap, s: int, k: int)
    requires InBounds(ranges, text) && k in ranges - {s}
    ensures InBounds(ranges - {s}, text)
    ensures RangePiece(text, ranges - {s}, styles, k) == RangePiece(text, ranges, styles, k)
  {
  }

  lemma InThree(x: Piece, a: seq<Piece>, b: seq<Piece>, c: seq<Piece>)
    requires x in a + b + c
    ensures x in a || x in b || x in c
  {
  }

  /** Every range is printed, whole and in its style. */
  lemma {:induction false} WalkPrintsRange(text: string, ranges: RangeMap, styles: StyleMap, style: Style, pos: int, k: int)
    requires InBounds(ranges, text) && 0 <= pos && k in ranges
    ensures RangePiece(text, ranges, styles, k) in Walk(text, ranges, styles, style, pos)
    decreases ranges.Keys
  {
    var s := MinKey(ranges.Keys);
    var e := ranges[s];
    var rest := ranges - {s};
    WalkStep(text, ranges, styles, style, pos);
    var plain := if s > pos then [Piece(text[pos..s], style)] else [];
    var tail := Walk(text, rest, styles, style, e + 1);
    if k != s {
      WalkPrintsRange(text, rest, styles, style, e + 1, k);
      RangePieceOfRest(text, ranges, styles, s, k);
    }
    InAppend(RangePiece(text, ranges, styles, k), plain, [RangePiece(text, ranges, styles, s)], tail);
  }

  // ---------------------------------------------------------------------------
  // findLinks (ChatPane.java:460-474)
  // ---------------------------------------------------------------------------

  /** One find() of Constants.urlMatcher: start() and end(), end exclusive */
  datatype UrlMatch = UrlMatch(start: int, end: int)

  /** The matcher reports positions inside the text it was reset to. */
  ghost predicate MatchesIn(matches: seq<UrlMatch>, text: string) {
    forall i :: 0 <= i < |matches| ==> 0 <= matches[i].start <= matches[i].end <= |text|
  }

  /** One iteration of the findLinks loop */
  function AdmitLink(text: string, m: UrlMatch, ranges: RangeMap, styles: StyleMap,
                     inRanges: (int, RangeMap) -> bool, checkUrl: string -> bool): (RangeMap, StyleMap)
    requires 0 <= m.start <= m.end <= |text|
  {
    var start := m.start;
    var end := m.end - 1;
    if !inRanges(start, ranges) && !inRanges(end, ranges) && checkUrl(text[m.start..m.end]) then
      (ranges[start := end], styles[start := Link(text[m.start..m.end])])
    else
      (ranges, styles)
  }

  /** The maps after findLinks has visited every match, in order */
  function FindLinksSpec(text: string, matches: seq<UrlMatch>, ranges: RangeMap, styles: StyleMap,
                         inRanges: (int, RangeMap) -> bool, checkUrl: string -> bool): (RangeMap, StyleMap)
    requires MatchesIn(matches, text)
    decreases |matches|
  {
    if matches == [] then (ranges, styles)
    else
      var next := AdmitLink(text, matches[0], ranges, styles, inRanges, checkUrl);
      FindLinksSpec(text, matches[1..], next.0, next.1, inRanges, checkUrl)
  }

  /**
   * ChatPane.findLinks: stores a match as [start, end - 1] with the link style
   * when neither endpoint is inside a stored range (Utils.inRanges) and the URL
   * passes Utils.checkURL; both collaborators are parameters.
   */
  method FindLinks(text: string, matches: seq<UrlMatch>, ranges: RangeMap, styles: StyleMap,
                   inRanges: (int, RangeMap) -> bool, checkUrl: string -> bool)
    returns (found: RangeMap, foundStyles: StyleMap)
    requires MatchesIn(matches, text)
    ensures (found, foundStyles) == FindLinksSpec(text, matches, ranges, styles, inRanges, checkUrl)
  {
    found, foundStyles := ranges, styles;
    var i := 0;
    while i < |matches|
      invariant 0 <= i <= |matches|
      invariant FindLinksSpec(text, matches[i..], found, foundStyles, inRanges, checkUrl)
             == FindLinksSpec(text, matches, ranges, styles, inRanges, checkUrl)
    {
      assert matches[i..][0] == matches[i] && matches[i..][1..] == matches[i + 1..];
      var start := matches[i].start;
      var end := matches[i].end - 1;
      if !inRanges(start, found) && !inRanges(end, found) {
        var foundUrl := text[matches[i].start..matches[i].end];
        if checkUrl(foundUrl) {
          found := found[start := end];
          foundStyles := foundStyles[start := Link(foundUrl)];
        }
      }
      i := i + 1;
    }
  }

  /**
   * Every range findLinks leaves was there before, untouched, or is a match
   * that checkURL accepted, stored as [start, end - 1] in the link style; no
   * stored range is dropped.
   */
  lemma {:induction false} FindLinksProvenance(text: string, matches: seq<UrlMatch>, ranges: RangeMap, styles: StyleMap,
                                               inRanges: (int, RangeMap) -> bool, checkUrl: string -> bool)
    requires MatchesIn(matches, text)
    ensures var r := FindLinksSpec(text, matches, ranges, styles, inRanges, checkUrl);
      && ranges.Keys <= r.0.Keys
      && forall k :: k in r.0 ==>
        || (k in ranges && r.0[k] == ranges[k] && StyleAt(r.1, k) == StyleAt(styles, k))
        || exists i :: 0 <= i < |matches| && LinkStored(text, matches[i], k, r.0, r.1, checkUrl)
    decreases |matches|
  {
    if matches != [] {
      var next := AdmitLink(text, matches[0], ranges, styles, inRanges, checkUrl);
      var tail := matches[1..];
      FindLinksProvenance(text, tail, next.0, next.1, inRanges, checkUrl);
      var r := FindLinksSpec(text, matches, ranges, styles, inRanges, checkUrl);
      forall k | k in r.0
        ensures
          || (k in ranges && r.0[k] == ranges[k] && StyleAt(r.1, k) == StyleAt(styles, k))
          || exists i :: 0 <= i < |matches| && LinkStored(text, matches[i], k, r.0, r.1, checkUrl)
      {
        if exists i :: 0 <= i < |tail| && LinkStored(text, tail[i], k, r.0, r.1, checkUrl) {
          var i :| 0 <= i < |tail| && LinkStored(text, tail[i], k, r.0, r.1, checkUrl);
          assert tail[i] == matches[i + 1];
        } else if !(k in ranges && r.0[k] == ranges[k] && StyleAt(r.1, k) == StyleAt(styles, k)) {
          assert LinkStored(text, matches[0], k, r.0, r.1, checkUrl);
        }
      }
    }
  }

  /** Match m is stored at key k, with its inclusive end and its link style */
  ghost predicate LinkStored(text: string, m: UrlMatch, k: int, found: RangeMap, foundStyles: StyleMap,
                             checkUrl: string -> bool)
    requires k in found
  {
    && 0 <= m.start <= m.end <= |text|
    && m.start == k
    && found[k] == m.end - 1
    && checkUrl(text[m.start..m.end])
    && StyleAt(foundStyles, k) == Link(text[m.start..m.end])
  }

  /** Utils.inRanges read by its name: some stored range covers the position */
  predicate Covered(x: int, ranges: RangeMap) {
    exists s :: s in ranges && s <= x <= ranges[s]
  }

  /**
   * The endpoint test does not keep ranges disjoint: a link that strictly
   * contains a stored range has neither endpoint inside it and is stored
   * anyway, overlapping it.
   */
  lemma ContainingLinkAdmitted(text: string, m: UrlMatch, ranges: RangeMap, styles: StyleMap,
                               checkUrl: string -> bool, inner: int)
    requires 0 <= m.start <= m.end <= |text|
    requires inner in ranges && m.start < inner <= ranges[inner] < m.end - 1
    requires !Covered(m.start, ranges) && !Covered(m.end - 1, ranges)
    requires checkUrl(text[m.start..m.end])
    ensures var r := FindLinksSpec(text, [m], ranges, styles, Covered, checkUrl);
      && r.0 == ranges[m.start := m.end - 1]
      && inner in r.0 && !Disjoint(r.0)
  {
    var r := FindLinksSpec(text, [m], ranges, styles, Covered, checkUrl);
    var next := AdmitLink(text, m, ranges, styles, Covered, checkUrl);
    assert [m][0] == m && [m][1..] == [];
    assert r == FindLinksSpec(text, [], next.0, next.1, Covered, checkUrl);
    assert !Covered(m.start, ranges) && !Covered(m.end - 1, ranges);
    assert next.0 == ranges[m.start := m.end - 1];
    assert m.start < inner && r.0[m.start] >= inner;
  }

  /** What Matcher.find reports for a URL pattern: non-empty matches, left to right, not overlapping */
  ghost predicate OrderedMatches(matches: seq<UrlMatch>, text: string) {
    && (forall i :: 0 <= i < |matches| ==> 0 <= matches[i].start < matches[i].end <= |text|)
    && (forall i :: 0 <= i < |matches| - 1 ==> matches[i].end <= matches[i + 1].start)
  }

  /** Links found left to right from no ranges are in bounds and disjoint. */
  lemma {:induction false} FindLinksDisjoint(text: string, matches: seq<UrlMatch>, ranges: RangeMap, styles: StyleMap,
                                             inRanges: (int, RangeMap) -> bool, checkUrl: string -> bool)
    requires OrderedMatches(matches, text)
    requires InBounds(ranges, text) && Disjoint(ranges)
    requires forall k :: k in ranges ==> k <= ranges[k]
    requires |matches| > 0 ==> forall k :: k in ranges ==> ranges[k] < matches[0].start
    ensures var r := FindLinksSpec(text, matches, ranges, styles, inRanges, checkUrl);
      InBounds(r.0, text) && Disjoint(r.0)
    decreases |matches|
  {
    if matches != [] {
      var m := matches[0];
      var next := AdmitLink(text, m, ranges, styles, inRanges, checkUrl);
      if next.0 != ranges {
        assert next.0 == ranges[m.start := m.end - 1];
        assert m.start !in ranges;
        forall a, b | a in next.0 && b in next.0 && a < b
          ensures next.0[a] < b
        {
          if b == m.start {
            assert a in ranges;
          }
        }
      }
      if |matches| > 1 {
        assert matches[1..][0] == matches[1];
      }
      FindLinksDisjoint(text, matches[1..], next.0, next.1, inRanges, checkUrl);
    }
  }

  /**
   * A message whose only special ranges are links found by findLinks prints
   * back exactly: findLinks followed by the printMessage walk is a round trip.
   */
  lemma LinkLayoutRoundTrip(text: string, matches: seq<UrlMatch>, inRanges: (int, RangeMap) -> bool,
                            checkUrl: string -> bool, style: Style)
    requires OrderedMatches(matches, text)
    ensures var r := FindLinksSpec(text, matches, map[], map[], inRanges, checkUrl);
      InBounds(r.0, text) && Concat(Walk(text, r.0, r.1, style, 0)) == text
  {
    var r := FindLinksSpec(text, matches, map[], map[], inRanges, checkUrl);
    FindLinksDisjoint(text, matches, map[], map[], inRanges, checkUrl);
    WalkRoundTrip(text, r.0, r.1, style, 0);
  }
}
