/**
 * util/APIRequests.java: the computation around the web requests. Every
 * request (opening a URL, reading its first line, parsing JSON, matching a
 * regular expression, posting a form) is a parameter: a function from what is
 * sent to what comes back, Failure standing for the exception it may throw.
 */
module Api {

  import opened Wrappers
  import opened JavaText

  /** util.Response: whether the request succeeded and the text to show, None while unset */
  datatype Response = Response(successful: bool, text: Option<string>)

  /** What reading a URL's first line gives: the line, or an exception */
  datatype Fetched = Line(line: string) | Failure

  const Unset := Response(false, None)

  function Failed(text: string): Response {
    Response(false, Some(text))
  }

  // ---------------------------------------------------------------------------
  // Twitch.getUptimeString (APIRequests.java:30-50)
  // ---------------------------------------------------------------------------

  const UptimeService := "https://nightdev.com/hosted/uptime.php?channel="

  /** The uptime request for a channel: its name with every '#' removed */
  function UptimeUrl(channel: string): (url: string)
    ensures StartsWith(url, UptimeService) && '#' !in url[|UptimeService|..]
    ensures url == UptimeService + RemoveAll(channel, '#')
  {
    assert (UptimeService + RemoveAll(channel, '#'))[|UptimeService|..] == RemoveAll(channel, '#');
    UptimeService + RemoveAll(channel, '#')
  }

  /** The response to the uptime service's answer */
  function UptimeResponse(answer: Fetched): (r: Response)
    ensures r.successful <==> answer.Line? && answer.line != "" && !Contains(answer.line, "is not") && !Contains(answer.line, "No chan")
    ensures r.text.None? <==> answer == Line("")
  {
    match answer
    case Failure => Failed("Error checking uptime due to Exception!")
    case Line(line) =>
      if line == "" then Unset
      else if Contains(line, "is not") then Failed("The stream is not live!")
      else if Contains(line, "No chan") then Failed("Error checking uptime, no channel specified!")
      else Response(true, Some("The stream has been live for: " + line))
  }

  /** getUptimeString: ask the service about the channel and classify its answer */
  function GetUptimeString(channel: string, fetch: string -> Fetched): (r: Response)
    ensures var answer := fetch(UptimeUrl(channel));
      && (r.successful <==> answer.Line? && answer.line != "" && !Contains(answer.line, "is not") && !Contains(answer.line, "No chan"))
      && (r.successful ==> r.text == Some("The stream has been live for: " + answer.line))
      && (answer.Failure? ==> r == Failed("Error checking uptime due to Exception!"))
    ensures fetch(UptimeUrl("#" + channel)) == fetch(UptimeUrl(channel))
  {
    UptimeTexts(fetch(UptimeUrl(channel)));
    UptimeIgnoresHash(channel);
    UptimeResponse(fetch(UptimeUrl(channel)))
  }

  /** A successful answer is shown whole after the fixed prefix; the others name their cause. */
  lemma UptimeTexts(answer: Fetched)
    ensures var r := UptimeResponse(answer);
      && (r.successful ==> r.text == Some("The stream has been live for: " + answer.line))
      && (answer.Line? && Contains(answer.line, "is not") ==> r == Failed("The stream is not live!"))
      && (answer.Line? && !Contains(answer.line, "is not") && Contains(answer.line, "No chan") ==>
            r == Failed("Error checking uptime, no channel specified!"))
      && (answer.Failure? ==> r == Failed("Error checking uptime due to Exception!"))
  {
    if answer.Line? && Contains(answer.line, "is not") {
      NonEmptyWhenContains(answer.line, "is not");
    }
    if answer.Line? && Contains(answer.line, "No chan") {
      NonEmptyWhenContains(answer.line, "No chan");
    }
  }

  lemma {:induction false} NonEmptyWhenContains(s: string, sub: string)
    requires Contains(s, sub) && sub != []
    ensures s != []
  {
  }

  /** A channel named with or without its '#' asks the same question. */
  lemma UptimeIgnoresHash(channel: string)
    ensures UptimeUrl("#" + channel) == UptimeUrl(channel)
  {
    var named := "#" + channel;
    assert named[0] == '#' && named[1..] == channel;
    assert RemoveAll(named, '#') == RemoveAll(channel, '#');
  }

  /**
   * The request carries the whole channel name but its '#' characters: every
   * other character as often as in the name, and a '#'-free name unchanged.
   */
  lemma UptimeUrlKeepsName(channel: string)
    ensures multiset(UptimeUrl(channel)[|UptimeService|..]) == multiset(channel)['#' := 0]
    ensures '#' !in channel ==> UptimeUrl(channel) == UptimeService + channel
  {
    assert UptimeUrl(channel)[|UptimeService|..] == RemoveAll(channel, '#');
    RemoveAllMultiset(channel, '#');
    if '#' !in channel {
      RemoveAllAbsent(channel, '#');
    }
  }

  /** Asking again with the name the request carried asks the same question. */
  lemma UptimeUrlStable(channel: string)
    ensures UptimeUrl(UptimeUrl(channel)[|UptimeService|..]) == UptimeUrl(channel)
  {
    var stripped := RemoveAll(channel, '#');
    assert UptimeUrl(channel)[|UptimeService|..] == stripped;
    RemoveAllAbsent(stripped, '#');
  }

  // ---------------------------------------------------------------------------
  // Twitch.playAdvert (APIRequests.java:226-258)
  // ---------------------------------------------------------------------------

  /**
   * The advert length. `cap` stands for Utils.capNumber(30, 180, _), whose code
   * is not part of this model: the length it returns is kept when it is a
   * multiple of 30 and replaced by 30 otherwise.
   */
  function AdvertLength(length: int, cap: int -> int): (r: int)
    ensures r % 30 == 0
    ensures r == cap(length) <==> cap(length) % 30 == 0
    ensures r != cap(length) ==> r == 30
    ensures 30 <= cap(length) <= 180 ==> 30 <= r <= 180
  {
    var capped := cap(length);
    if capped % 30 != 0 then 30 else capped
  }

  /** Holding n within [min, max], what the comment at the call says capNumber does */
  function Clamp(min: int, max: int, n: int): (r: int)
    requires min <= max
    ensures min <= r <= max
    ensures min <= n <= max ==> r == n
    ensures n < min ==> r == min
    ensures n > max ==> r == max
  {
    if n < min then min else if n > max then max else n
  }

  /** capNumber(30, 180, _) read as the clamp */
  function CapAdvert(n: int): int {
    Clamp(30, 180, n)
  }

  /**
   * With the clamp, every request asks for one of 30, 60, ..., 180 seconds; the
   * lengths the service accepts are kept and any other is replaced.
   */
  lemma AdvertLengthAccepted(length: int)
    ensures var r := AdvertLength(length, CapAdvert);
      && 30 <= r <= 180 && r % 30 == 0
      && (r == length <==> 30 <= length <= 180 && length % 30 == 0)
      && (length > 180 ==> r == 180)
      && (length < 30 ==> r == 30)
  {
  }

  /** A length that is out of step falls back to the shortest advert, not to the nearest. */
  lemma AdvertLengthExamples()
    ensures AdvertLength(45, CapAdvert) == 30 && AdvertLength(170, CapAdvert) == 30
    ensures AdvertLength(0, CapAdvert) == 30 && AdvertLength(600, CapAdvert) == 180
  {
  }

  /** The commercial request: the channel with its '#' removed, and the form body */
  function AdvertRequest(channel: string, length: int, cap: int -> int): (req: (string, string))
    ensures '#' !in req.0
    ensures req.0 == "https://api.twitch.tv/kraken/channels/" + RemoveAll(channel, '#') + "/commercial"
    ensures req.1 == "length=" + IntToString(AdvertLength(length, cap))
  {
    var n := AdvertLength(length, cap);
    ("https://api.twitch.tv/kraken/channels/" + RemoveAll(channel, '#') + "/commercial", "length=" + IntToString(n))
  }

  /** The commercial is asked for on the channel's own path, with or without its leading '#'. */
  lemma AdvertPathKeepsName(name: string, length: int, cap: int -> int)
    requires '#' !in name
    ensures AdvertRequest(name, length, cap).0 == "https://api.twitch.tv/kraken/channels/" + name + "/commercial"
    ensures AdvertRequest("#" + name, length, cap).0 == AdvertRequest(name, length, cap).0
  {
    RemoveAllAbsent(name, '#');
    var named := "#" + name;
    assert named[0] == '#' && named[1..] == name;
    assert RemoveAll(named, '#') == RemoveAll(name, '#');
  }

  /**
   * playAdvert: true exactly when the post answers 204 No Content; `post` is
   * None where it throws. The Authorization header reads key.split(":")[1],
   * which throws for a key without a second field; the outer catch then
   * returns false and nothing is posted.
   */
  function PlayAdvert(key: string, channel: string, length: int, cap: int -> int,
                      post: (string, string, string) -> Option<int>): (played: bool)
    ensures |Split(key, ':')| < 2 ==> !played
    ensures |Split(key, ':')| >= 2 ==>
      var req := AdvertRequest(channel, length, cap);
      played <==> post(req.0, req.1, "OAuth " + Split(key, ':')[1]) == Some(204)
  {
    var parts := Split(key, ':');
    if |parts| < 2 then false
    else
      var req := AdvertRequest(channel, length, cap);
      match post(req.0, req.1, "OAuth " + parts[1])
      case None => false
      case Some(code) => code == 204
  }

  /**
   * A key with no token after its colon, or with no colon at all, plays no
   * advert whatever the service would answer; with one, the token is what is
   * sent.
   */
  lemma AdvertNeedsToken(name: string, token: string, channel: string, length: int, cap: int -> int,
                         post: (string, string, string) -> Option<int>)
    requires ':' !in name && ':' !in token && token != ""
    ensures !PlayAdvert(name, channel, length, cap, post)
    ensures !PlayAdvert(name + ":", channel, length, cap, post)
    ensures var req := AdvertRequest(channel, length, cap);
      PlayAdvert(name + ":" + token, channel, length, cap, post) <==> post(req.0, req.1, "OAuth " + token) == Some(204)
  {
    SplitTrailingSeparator(name, ':');
    SplitTwoFields(name, token, ':');
  }

  // ---------------------------------------------------------------------------
  // Twitch.setStreamStatus (APIRequests.java:157-185)
  // ---------------------------------------------------------------------------

  const OAuthError := "This OAuth key cannot update the status of the stream! Try re-authenticating in the Settings GUI!"

  function Field(isTitle: bool): string {
    if isTitle then "title" else "game"
  }

  function UsageError(isTitle: bool): string {
    var add := Field(isTitle);
    "Failed to set status status of the " + add + ", usage: !set" + add + " (new " + add + ") or \"null\""
  }

  function AlreadySet(isTitle: bool): string {
    var add := Field(isTitle);
    "Failed to set " + add + ", the " + add + " is already set to that!"
  }

  /** The command has an argument: splitting on ' ' leaves more than one part. */
  predicate HasArgument(message: string) {
    |Split(message, ' ')| > 1
  }

  /** The text after the first space, with " " and "null" standing for nothing */
  function NewValue(message: string): (v: string)
    requires ' ' in message
    ensures v != " " && v != "null"
    ensures |v| < |message|
  {
    var raw := message[IndexOf(message, ' ') + 1..];
    if raw == " " || raw == "null" then "" else raw
  }

  /**
   * The new value is what follows the first space, whatever it holds, except
   * that a lone space or "null" asks for an empty value.
   */
  lemma NewValueAfterFirstSpace(head: string, tail: string)
    requires ' ' !in head
    ensures NewValue(head + " " + tail) == if tail == " " || tail == "null" then "" else tail
  {
    var message := head + " " + tail;
    assert message[|head|] == ' ';
    assert message[..|head|] == head;
    assert IndexOf(message, ' ') == |head|;
    assert message[|head| + 1..] == tail;
  }

  /** How a successful update names the new value */
  function Shown(value: string, isTitle: bool): (s: string)
    ensures s != []
    ensures value != [] ==> s == value
    ensures value == [] ==> s == (if isTitle then "(untitled broadcast)" else "(not playing a game)")
  {
    if value == "" then (if isTitle then "(untitled broadcast)" else "(not playing a game)") else value
  }

  /** The outcome of setStreamStatus: the response, and the (title, game) it asked the service to set */
  datatype StatusOutcome = StatusOutcome(response: Response, request: Option<(string, string)>)

  /**
   * setStreamStatus. The stream's current title and game (what the status
   * lookups return) are parameters, and so is setStatusOfStream, a function
   * from the (title, game) to set to its response.
   */
  function SetStreamStatus(canSetTitle: bool, message: string, isTitle: bool,
                           currentTitle: string, currentGame: string,
                           setStatus: (string, string) -> Response): (r: StatusOutcome)
    ensures !canSetTitle ==> r == StatusOutcome(Failed(OAuthError), None)
    ensures canSetTitle && !HasArgument(message) ==> r == StatusOutcome(Failed(UsageError(isTitle)), None)
    ensures canSetTitle && HasArgument(message) ==>
      var v := NewValue(message);
      var current := if isTitle then currentTitle else currentGame;
      && (r.request.None? <==> EqualsIgnoreCase(v, current))
      && (r.request.None? ==> r.response == Failed(AlreadySet(isTitle)))
      && (r.request.Some? ==> r.request.value == (if isTitle then (v, currentGame) else (currentTitle, v)))
  {
    if !canSetTitle then StatusOutcome(Failed(OAuthError), None)
    else if !HasArgument(message) then StatusOutcome(Failed(UsageError(isTitle)), None)
    else
      var add := Field(isTitle);
      var v := NewValue(message);
      if EqualsIgnoreCase(v, if isTitle then currentTitle else currentGame) then
        StatusOutcome(Failed(AlreadySet(isTitle)), None)
      else
        var request := if isTitle then (v, currentGame) else (currentTitle, v);
        var status := setStatus(request.0, request.1);
        if status.successful then
          StatusOutcome(Response(true, Some("Successfully set " + add + " to: \"" + Shown(v, isTitle) + "\" !")), Some(request))
        else
          StatusOutcome(Response(false, status.text), Some(request))
  }

  /** Success is the service's success, and it is announced with the value set. */
  lemma StatusSuccess(canSetTitle: bool, message: string, isTitle: bool,
                      currentTitle: string, currentGame: string,
                      setStatus: (string, string) -> Response)
    ensures var r := SetStreamStatus(canSetTitle, message, isTitle, currentTitle, currentGame, setStatus);
      && (r.response.successful <==> r.request.Some? && setStatus(r.request.value.0, r.request.value.1).successful)
      && (r.response.successful ==> r.response.text == Some("Successfully set " + Field(isTitle) + " to: \"" + Shown(NewValue(message), isTitle) + "\" !"))
      && (r.request.Some? && !r.response.successful ==> r.response.text == setStatus(r.request.value.0, r.request.value.1).text)
  {
  }

  /** A command with an argument has a space, so its new value is defined. */
  lemma ArgumentHasSpace(message: string)
    requires HasArgument(message)
    ensures ' ' in message
  {
  }

  /** Dropping the trailing empty strings leaves at most one exactly when all but the first are empty. */
  lemma DropToAtMostOne(head: string, rest: seq<string>)
    ensures |DropTrailingEmpty([head] + rest)| <= 1 <==> forall k :: 0 <= k < |rest| ==> rest[k] == ""
  {
    var fields := [head] + rest;
    var r := DropTrailingEmpty(fields);
    assert forall k :: 0 <= k < |rest| ==> rest[k] == fields[k + 1];
    if |r| > 1 {
      assert rest[|r| - 2] == r[|r| - 1] != "";
    }
  }

  /** The fields of a command: the text before its first space, then the fields of the rest */
  lemma SplitAtFirstSpace(message: string)
    requires ' ' in message
    ensures var i := IndexOf(message, ' ');
      Split(message, ' ') == DropTrailingEmpty([message[..i]] + Fields(message[i + 1..], ' '))
  {
    var i := IndexOf(message, ' ');
    AroundPosition(message, i);
    SplitAtSeparator(message[..i], message[i + 1..], ' ');
  }

  /** A text is what comes before a position, the character there, and what follows. */
  lemma AroundPosition(message: string, i: int)
    requires 0 <= i < |message|
    ensures message == message[..i] + [message[i]] + message[i + 1..]
  {
    assert message == message[..i] + message[i..i + 1] + message[i + 1..];
  }

  /**
   * The usage error is given exactly when nothing but spaces follows the first
   * space, or there is no space at all.
   */
  lemma UsageIffBlankArgument(message: string)
    ensures !HasArgument(message) <==>
      ' ' !in message || (forall j :: IndexOf(message, ' ') < j < |message| ==> message[j] == ' ')
  {
    if ' ' in message {
      var i := IndexOf(message, ' ');
      var tail := message[i + 1..];
      NoArgumentIffBlankFields(message);
      FieldsAllEmpty(tail, ' ');
      TailAllSpaces(message, i, tail);
    }
  }

  /** Past the first space, the command has no argument exactly when every field is empty. */
  lemma NoArgumentIffBlankFields(message: string)
    requires ' ' in message
    ensures var fields := Fields(message[IndexOf(message, ' ') + 1..], ' ');
      !HasArgument(message) <==> forall k :: 0 <= k < |fields| ==> fields[k] == ""
  {
    var i := IndexOf(message, ' ');
    SplitAtFirstSpace(message);
    DropToAtMostOne(message[..i], Fields(message[i + 1..], ' '));
  }

  /**
   * A command with an argument never leaves " " after its first space, so
   * the " " case of the normalisation never applies: only "null" is read as
   * an empty value.
   */
  lemma BlankValueUnreachable(message: string)
    requires HasArgument(message)
    ensures message[IndexOf(message, ' ') + 1..] != " "
    ensures NewValue(message) == "" <==> message[IndexOf(message, ' ') + 1..] == "null"
  {
    ArgumentNotBlank(message);
    var i := IndexOf(message, ' ');
    var j :| i < j < |message| && message[j] != ' ';
    NonBlankTail(message, i, j);
    NewValueOfNonBlank(message);
  }

  /** A tail holding a non-space character is neither empty nor a single space. */
  lemma NonBlankTail(message: string, i: int, j: int)
    requires 0 <= i < j < |message| && message[j] != ' '
    ensures message[i + 1..] != " " && message[i + 1..] != ""
  {
    assert message[i + 1..][j - i - 1] == message[j];
  }

  /** When the tail is neither empty nor " ", only "null" reads as the empty value. */
  lemma NewValueOfNonBlank(message: string)
    requires ' ' in message
    requires message[IndexOf(message, ' ') + 1..] != " " && message[IndexOf(message, ' ') + 1..] != ""
    ensures NewValue(message) == "" <==> message[IndexOf(message, ' ') + 1..] == "null"
  {
  }

  /** A command with an argument has something other than a space after its first space. */
  lemma ArgumentNotBlank(message: string)
    requires HasArgument(message)
    ensures ' ' in message && exists j :: IndexOf(message, ' ') < j < |message| && message[j] != ' '
  {
    UsageIffBlankArgument(message);
  }

  lemma TailAllSpaces(message: string, i: int, tail: string)
    requires 0 <= i < |message| && tail == message[i + 1..]
    ensures (forall j :: 0 <= j < |tail| ==> tail[j] == ' ') <==> (forall j :: i < j < |message| ==> message[j] == ' ')
  {
    if forall j :: 0 <= j < |tail| ==> tail[j] == ' ' {
      forall j | i < j < |message| ensures message[j] == ' ' {
        assert message[j] == tail[j - i - 1];
      }
    }
  }

  // ---------------------------------------------------------------------------
  // YouTube.getTimeString (APIRequests.java:470-477)
  // ---------------------------------------------------------------------------

  /** Java's `/` on int: the quotient truncated toward zero */
  function JavaDiv(a: int, b: int): int
    requires b > 0
  {
    if a >= 0 then a / b else -((-a) / b)
  }

  /** Java's `%` on int: the remainder takes the sign of the dividend */
  function JavaRem(a: int, b: int): (r: int)
    requires b > 0
    ensures a == JavaDiv(a, b) * b + r
    ensures -b < r < b && (a >= 0 ==> r >= 0) && (a <= 0 ==> r <= 0)
  {
    if a >= 0 then a % b else -((-a) % b)
  }

  /** `(int) d.getSeconds()`: the low 32 bits of the long, as a signed int */
  function ToInt(n: int): (r: int)
    ensures -0x8000_0000 <= r < 0x8000_0000
    ensures -0x8000_0000 <= n < 0x8000_0000 ==> r == n
    ensures (r - n) % 0x1_0000_0000 == 0
  {
    (n + 0x8000_0000) % 0x1_0000_0000 - 0x8000_0000
  }

  /** hours, minutes and seconds of a count of seconds */
  function TimeParts(s: int): (int, int, int) {
    (JavaDiv(s, 3600), JavaDiv(JavaRem(s, 3600), 60), JavaRem(s, 60))
  }

  /** The parts make up the count again, and minutes and seconds stay below 60 either way. */
  lemma TimePartsRecombine(s: int)
    ensures var (h, m, sec) := TimeParts(s);
      && h * 3600 + m * 60 + sec == s
      && -60 < m < 60 && -60 < sec < 60
      && (s >= 0 ==> h >= 0 && 0 <= m < 60 && 0 <= sec < 60)
  {
    var r := JavaRem(s, 3600);
    var m := JavaDiv(r, 60);
    assert r == m * 60 + JavaRem(r, 60);
    RemOfRem(s);
  }

  /** Since 60 divides 3600, the seconds can be read from either remainder. */
  lemma RemOfRem(s: int)
    ensures JavaRem(JavaRem(s, 3600), 60) == JavaRem(s, 60)
  {
    if s >= 0 {
      NatRemOfRem(s);
    } else {
      NatRemOfRem(-s);
    }
  }

  /** The same on non-negative counts, where Java's `%` is Dafny's. */
  lemma NatRemOfRem(t: nat)
    ensures (t % 3600) % 60 == t % 60
  {
    var q, r := t / 3600, t % 3600;
    var a, b := r / 60, r % 60;
    assert t == 3600 * q + r && r == 60 * a + b && 0 <= b < 60;
    RemUnique(t, 60 * q + a, b);
  }

  /** The remainder by 60 is the only b in [0, 60) with t == 60 * a + b. */
  lemma RemUnique(t: int, a: int, b: int)
    requires t == 60 * a + b && 0 <= b < 60
    ensures t % 60 == b
  {
  }

  /** `%02d`: zero-padded to two characters */
  function Pad2(n: int): (r: string)
    ensures 0 <= n < 100 ==> |r| == 2 && AllDigits(r)
  {
    if 0 <= n < 10 then "0" + NatToString(n) else IntToString(n)
  }

  /** getTimeString: "H:MM:SS" with hours, else "MM:SS" */
  function TimeString(s: int): (r: string)
    ensures 0 <= s < 3600 ==> |r| == 5 && r[2] == ':' && AllDigits(r[..2]) && AllDigits(r[3..])
    ensures s >= 3600 ==> |r| >= 7 && r[|r| - 3] == ':' && r[|r| - 6] == ':'
  {
    TimePartsRecombine(s);
    var (h, m, sec) := TimeParts(s);
    if h > 0 then IntToString(h) + ":" + Pad2(m) + ":" + Pad2(sec)
    else Pad2(m) + ":" + Pad2(sec)
  }

  /** Reads "H:MM:SS" or "MM:SS" back into seconds */
  function ParseTime(text: string): Option<int> {
    var f := Split(text, ':');
    if |f| == 3 && ParseNat(f[0]).Some? && ParseNat(f[1]).Some? && ParseNat(f[2]).Some? then
      Some(ParseNat(f[0]).value * 3600 + ParseNat(f[1]).value * 60 + ParseNat(f[2]).value)
    else if |f| == 2 && ParseNat(f[0]).Some? && ParseNat(f[1]).Some? then
      Some(ParseNat(f[0]).value * 60 + ParseNat(f[1]).value)
    else None
  }

  lemma Pad2Value(n: int)
    requires 0 <= n < 60
    ensures ParseNat(Pad2(n)) == Some(n)
  {
    NatToStringRoundTrip(n);
    if n < 10 {
      var p := "0" + NatToString(n);
      assert NatToString(n) == [DigitChar(n)];
      assert AllDigits(p) && p[..1] == "0" && p[1] == DigitChar(n);
      assert DigitsValue("0") == 0 by {
        assert "0"[..0] == [];
      }
      assert DigitsValue(p) == 10 * DigitsValue(p[..1]) + DigitValue(p[1]);
    }
  }

  lemma DigitsNoColon(s: string)
    requires AllDigits(s)
    ensures ':' !in s
  {
    forall i | 0 <= i < |s|
      ensures s[i] != ':'
    {
      assert IsDigit(s[i]);
    }
  }

  lemma TwoFields(a: string, b: string)
    requires ':' !in a && ':' !in b && b != []
    ensures Split(a + ":" + b, ':') == [a, b]
  {
    FieldsNoSeparator(b, ':');
    FieldsAtSeparator(a, b, ':');
    assert (a + ":" + b)[|a|] == ':';
  }

  lemma ThreeFields(a: string, b: string, c: string)
    requires ':' !in a && ':' !in b && ':' !in c && c != []
    ensures Split(a + ":" + b + ":" + c, ':') == [a, b, c]
  {
    FieldsNoSeparator(c, ':');
    FieldsAtSeparator(b, c, ':');
    assert a + ":" + b + ":" + c == a + [':'] + (b + ":" + c);
    FieldsAtSeparator(a, b + ":" + c, ':');
    assert (a + ":" + b + ":" + c)[|a|] == ':';
  }

  /**
   * The formatted time reads back as the count of seconds: with hours it has
   * three fields, without them two.
   */
  lemma TimeStringRoundTrip(s: nat)
    ensures ParseTime(TimeString(s)) == Some(s)
    ensures |Split(TimeString(s), ':')| == (if s >= 3600 then 3 else 2)
  {
    TimePartsRecombine(s);
    var (h, m, sec) := TimeParts(s);
    assert h * 3600 + m * 60 + sec == s;
    assert h > 0 <==> s >= 3600 by {
      if h > 0 {
        assert h * 3600 >= 3600;
      }
    }
    var text := if h > 0 then IntToString(h) + ":" + Pad2(m) + ":" + Pad2(sec) else Pad2(m) + ":" + Pad2(sec);
    assert TimeString(s) == text;
    ClockTextRoundTrip(h, m, sec);
    assert ParseTime(text) == Some(s);
  }

  /** The clock text of hours, minutes and seconds reads back as their count of seconds. */
  lemma ClockTextRoundTrip(h: nat, m: nat, sec: nat)
    requires m < 60 && sec < 60
    ensures var t := if h > 0 then IntToString(h) + ":" + Pad2(m) + ":" + Pad2(sec) else Pad2(m) + ":" + Pad2(sec);
      && ParseTime(t) == Some(h * 3600 + m * 60 + sec)
      && |Split(t, ':')| == (if h > 0 then 3 else 2)
  {
    Pad2Value(m);
    Pad2Value(sec);
    var pm, ps := Pad2(m), Pad2(sec);
    DigitsNoColon(pm);
    DigitsNoColon(ps);
    if h > 0 {
      var ph := IntToString(h);
      DigitsNoColon(ph);
      NatToStringRoundTrip(h);
      ThreeFields(ph, pm, ps);
      ParseThree(ph, pm, ps, h, m, sec);
    } else {
      TwoFields(pm, ps);
      ParseTwo(pm, ps, m, sec);
    }
  }

  /** Three fields read as hours, minutes and seconds. */
  lemma ParseThree(ph: string, pm: string, ps: string, h: nat, m: nat, sec: nat)
    requires Split(ph + ":" + pm + ":" + ps, ':') == [ph, pm, ps]
    requires ParseNat(ph) == Some(h) && ParseNat(pm) == Some(m) && ParseNat(ps) == Some(sec)
    ensures ParseTime(ph + ":" + pm + ":" + ps) == Some(h * 3600 + m * 60 + sec)
  {
  }

  /** Two fields read as minutes and seconds. */
  lemma ParseTwo(pm: string, ps: string, m: nat, sec: nat)
    requires Split(pm + ":" + ps, ':') == [pm, ps]
    requires ParseNat(pm) == Some(m) && ParseNat(ps) == Some(sec)
    ensures ParseTime(pm + ":" + ps) == Some(m * 60 + sec)
  {
  }

  // ---------------------------------------------------------------------------
  // YouTube.getVideoData (APIRequests.java:424-468)
  // ---------------------------------------------------------------------------

  /** The three forms of video link the regular expressions look for */
  datatype VideoPattern = ShortLink | WatchParameter | EmbedLink

  /** The pattern for a link, None when no form applies */
  function ChooseVideoPattern(url: string): (p: Option<VideoPattern>)
    ensures p.None? <==> !Contains(url, "youtu.be/") && !Contains(url, "v=") && !Contains(url, "/embed/")
    ensures p == Some(ShortLink) <==> Contains(url, "youtu.be/")
    ensures p == Some(WatchParameter) <==> !Contains(url, "youtu.be/") && Contains(url, "v=")
  {
    if Contains(url, "youtu.be/") then Some(ShortLink)
    else if Contains(url, "v=") then Some(WatchParameter)
    else if Contains(url, "/embed/") then Some(EmbedLink)
    else None
  }

  /** What the video lookup gives back */
  datatype VideoAnswer =
    | NoAnswer                                        // an empty first line
    | NoItems                                         // the item list is empty
    | Details(title: string, channelName: string, seconds: int) // the first item; seconds as a long
    | LookupFailure                                   // an exception while reading or parsing

  /**
   * getVideoData. `find` is the chosen pattern's first match in the link (its
   * group 1, the video id) and `lookup` the answer to the request for an id.
   */
  function GetVideoData(url: string, find: (VideoPattern, string) -> Option<string>,
                        lookup: string -> VideoAnswer): (r: Response)
    ensures ChooseVideoPattern(url).None? ==> r == Failed("Could not read YouTube URL!")
    ensures r.successful <==> ChooseVideoPattern(url).Some? && find(ChooseVideoPattern(url).value, url).Some?
                                && lookup(find(ChooseVideoPattern(url).value, url).value).Details?
  {
    match ChooseVideoPattern(url)
    case None => Failed("Could not read YouTube URL!")
    case Some(p) =>
      match find(p, url)
      case None => Unset
      case Some(id) =>
        match lookup(id)
        case NoAnswer => Unset
        case NoItems => Failed("Failed to parse YouTube video! Perhaps a bad ID?")
        case LookupFailure => Failed("Failed to parse YouTube video due to an Exception!")
        case Details(title, channelName, seconds) =>
          Response(true, Some("Linked YouTube Video: \"" + title + "\" by " + channelName + " [" + TimeString(ToInt(seconds)) + "]"))
  }

  /** A link to a video under an hour long is announced with its "MM:SS" length at the end. */
  lemma VideoAnnouncement(url: string, find: (VideoPattern, string) -> Option<string>,
                          lookup: string -> VideoAnswer, id: string, title: string, channelName: string, seconds: nat)
    requires ChooseVideoPattern(url).Some? && find(ChooseVideoPattern(url).value, url) == Some(id)
    requires lookup(id) == Details(title, channelName, seconds) && seconds < 3600
    ensures var r := GetVideoData(url, find, lookup);
      r.successful && r.text.Some? && EndsWith(r.text.value, " [" + TimeString(seconds) + "]")
      && |TimeString(seconds)| == 5
  {
    var suffix := " [" + TimeString(seconds) + "]";
    var prefix := "Linked YouTube Video: \"" + title + "\" by " + channelName;
    assert ToInt(seconds) == seconds;
    var full := prefix + " [" + TimeString(seconds) + "]";
    assert GetVideoData(url, find, lookup) == Response(true, Some(full));
    assert full == prefix + suffix;
    EndsWithAppend(prefix, suffix);
  }
}
