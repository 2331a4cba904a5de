/**
 * One polling cycle, `run_check` (check_pass.py:234-325), with the state
 * file helpers `load_state` and `save_state` (check_pass.py:88-97).
 *
 * A cycle checks the configuration, loads the persisted state, reads the
 * calendar through the browser, tries to book when auto-booking is on,
 * nothing has been booked yet and days are available, records what it saw,
 * saves the state and sends notifications. Availability is announced only
 * on the transition from "not available" to "available"; a successful
 * booking is remembered in the state and announced at once.
 */
module Cycle {
  import opened Wrappers
  import opened Availability
  import opened Fingerprint
  import opened Booking
  import opened Notify

  /** A JSON value as far as Python truthiness goes: `bool`, `str`, or anything else with its truthiness. */
  datatype Value = Bool(b: bool) | Str(s: string) | Other(truthy: bool)

  type State = map<string, Value>

  /** The parsed contents of `state.json`: a JSON object, or some other JSON value. */
  datatype Document = Object(fields: State) | NotObject

  /** `state.json`: absent, present but unreadable or not JSON, or parsed. */
  datatype StoredFile = Missing | Unreadable | Stored(doc: Document)

  /**
   * The environment the cycle reads: credentials and base URL (empty when
   * unset), the `AUTO_BOOK` and `TEST_PING_WHEN_NO_DAYS` flags, and the
   * two Telegram recipients.
   */
  datatype Config = Config(
    user: string,
    password: string,
    baseUrl: string,
    autoBook: bool,
    testPing: bool,
    channels: Channels)

  /**
   * What the browser session yields: it fails (navigation, login or reading
   * the calendar raised), or it yields the calendar text and the page that
   * booking then works on.
   */
  datatype Browse = BrowserFails | Read(text: string, page: BookingPage)

  /** Why a cycle ended with an exception. */
  datatype Cause = StateNotObject | BrowserError

  /**
   * How a cycle ends: `SystemExit` for missing configuration, an exception,
   * or normally with the state saved and then the notifications made.
   */
  datatype Outcome = MissingConfig | Crashed(cause: Cause) | Done(saved: State, notices: seq<Effect>)

  const BookedMsg := "\U{2705} Slot automatisch GEBOEKT via bovenste 'Schedule'-knop. Check PASS ter bevestiging."
  const SpotsMsg := "\U{1F389} Er zijn plekken beschikbaar op PASS."
  const PingMsg := "\U{1F9EA} Testping: 'Geen dagen gevonden.' is zichtbaar \U{2014} melding werkt \U{2705}"
  const NoButtonMsg := "\U{26A0}\U{FE0F} Dagen gevonden, maar geen 'Schedule'-knop gedetecteerd. Boek handmatig."
  const NowMsg := "\U{1F389} Er zijn NU dagen beschikbaar op PASS. Snel inloggen en plannen!"
  const InfoMsg := "[INFO] Geen nieuwe beschikbaarheid."

  /** The warning sent to the owner when booking was tried and did not succeed. */
  function FailedMsg(reason: string): string {
    "\U{26A0}\U{FE0F} Dagen gevonden maar automatisch boeken mislukte (reden: " + reason + "). Boek handmatig."
  }

  function Truthy(v: Value): bool {
    match v
    case Bool(b) => b
    case Str(s) => s != ""
    case Other(t) => t
  }

  /** `bool(state.get(key, False))` */
  predicate Flag(state: State, key: string) {
    key in state && Truthy(state[key])
  }

  predicate ConfigComplete(cfg: Config) {
    cfg.user != "" && cfg.password != "" && cfg.baseUrl != ""
  }

  /**
   * `load_state()`, followed by the first `state.get`: a missing or
   * unreadable file is the empty state, and a document that is not an
   * object has no `get`, which is `None` here.
   */
  function LoadState(file: StoredFile): (r: Option<State>)
    ensures r.None? <==> file == Stored(NotObject)
    ensures !file.Stored? ==> r == Some(map[])
    ensures forall f :: file == Stored(Object(f)) ==> r == Some(f)
  {
    match file
    case Missing => Some(map[])
    case Unreadable => Some(map[])
    case Stored(doc) =>
      match doc
      case Object(fields) => Some(fields)
      case NotObject => None
  }

  /** Whether the cycle tries to book, given the loaded state and the calendar text. */
  predicate Attempts(cfg: Config, state: State, text: string) {
    cfg.autoBook && !Flag(state, "booked") && HasAvailability(text)
  }

  /** The keys a cycle writes. */
  function Written(booked: bool): set<string> {
    {"last_seen", "available", "calendar_hash"} + (if booked then {"booked"} else {})
  }

  /**
   * The state a cycle saves: the time, whether days are available, the
   * fingerprint of the calendar text, `booked` when this cycle booked, and
   * every other entry as it was loaded.
   */
  function Updated(state: State, now: string, available: bool, hash: string, booked: bool): (s: State)
    ensures "last_seen" in s && s["last_seen"] == Str(now)
    ensures "available" in s && s["available"] == Bool(available)
    ensures "calendar_hash" in s && s["calendar_hash"] == Str(hash)
    ensures booked ==> "booked" in s && s["booked"] == Bool(true)
    ensures forall k :: k !in Written(booked) ==> (k in s <==> k in state) && (k in state ==> s[k] == state[k])
  {
    var s := state["last_seen" := Str(now)]["available" := Bool(available)]["calendar_hash" := Str(hash)];
    if booked then s["booked" := Bool(true)] else s
  }

  /** The test ping, sent when test mode is on and no days are available. */
  function PingNotices(cfg: Config, posts: (Who, string) -> bool, availableNow: bool): seq<Effect> {
    if cfg.testPing && !availableNow then BothNotice(cfg.channels, posts, PingMsg) else []
  }

  /** The availability news after a cycle without a successful booking. */
  function NewsNotices(
    cfg: Config, posts: (Who, string) -> bool,
    alreadyBooked: bool, wasAvailable: bool, availableNow: bool,
    booking: Option<BookingResult>): seq<Effect>
  {
    var ch := cfg.channels;
    if availableNow && !wasAvailable then
      if cfg.autoBook && !alreadyBooked then
        if booking.Some? then
          OwnerNotice(ch, posts, FailedMsg(booking.value.reason)) + FriendNotice(ch, posts, SpotsMsg)
        else
          OwnerNotice(ch, posts, NoButtonMsg) + FriendNotice(ch, posts, SpotsMsg)
      else
        BothNotice(ch, posts, NowMsg)
    else
      [Print(InfoMsg)]
  }

  /**
   * The notifications after the state is saved, given the flags read from
   * the loaded state, the availability now, and the booking result if
   * booking was tried.
   */
  function CycleNotices(
    cfg: Config, posts: (Who, string) -> bool,
    alreadyBooked: bool, wasAvailable: bool, availableNow: bool,
    booking: Option<BookingResult>): seq<Effect>
  {
    if booking.Some? && booking.value.success then
      OwnerNotice(cfg.channels, posts, BookedMsg) + FriendNotice(cfg.channels, posts, SpotsMsg)
    else
      PingNotices(cfg, posts, availableNow) + NewsNotices(cfg, posts, alreadyBooked, wasAvailable, availableNow, booking)
  }

  /**
   * The notification part of `run_check()`, once the state is saved.
   * Booking was tried exactly when auto-booking is on, nothing was booked
   * before and days are available, so the "no Schedule button" branch of
   * the source is never taken.
   */
  method Announce(
    cfg: Config, posts: (Who, string) -> bool,
    alreadyBooked: bool, wasAvailable: bool, availableNow: bool,
    booking: Option<BookingResult>)
    returns (notices: seq<Effect>)
    requires booking.Some? <==> cfg.autoBook && !alreadyBooked && availableNow
    ensures notices == CycleNotices(cfg, posts, alreadyBooked, wasAvailable, availableNow, booking)
  {
    if booking.Some? && booking.value.success {
      var toOwner := NotifySelf(cfg.channels, posts, BookedMsg);
      var toFriend := NotifyFriend(cfg.channels, posts, SpotsMsg);
      return toOwner + toFriend;
    }
    notices := [];
    if cfg.testPing && !availableNow {
      notices := NotifyBoth(cfg.channels, posts, PingMsg);
    }
    assert notices == PingNotices(cfg, posts, availableNow);
    if availableNow && !wasAvailable {
      if cfg.autoBook && !alreadyBooked {
        if booking.Some? && !booking.value.success {
          var toOwner := NotifySelf(cfg.channels, posts, FailedMsg(booking.value.reason));
          var toFriend := NotifyFriend(cfg.channels, posts, SpotsMsg);
          notices := notices + (toOwner + toFriend);
        } else if booking.None? {
          assert false;
        }
      } else {
        var both := NotifyBoth(cfg.channels, posts, NowMsg);
        notices := notices + both;
      }
    } else {
      notices := notices + [Print(InfoMsg)];
    }
  }

  /** The normal end of a cycle that read `text` from the loaded `state`. */
  function Finished(
    cfg: Config, state: State, text: string, booking: Option<BookingResult>,
    now: string, digest: string -> string, posts: (Who, string) -> bool): Outcome
  {
    var booked := booking.Some? && booking.value.success;
    Done(Updated(state, now, HasAvailability(text), CalcHash(digest, text), booked),
      CycleNotices(cfg, posts, Flag(state, "booked"), Flag(state, "available"), HasAvailability(text), booking))
  }

  /**
   * `run_check()`. The clock, the digest and the network are parameters;
   * `attempted` tells whether `auto_book_top_schedule` was called.
   */
  method RunCheck(
    cfg: Config, file: StoredFile, browse: Browse,
    now: string, digest: string -> string, posts: (Who, string) -> bool)
    returns (outcome: Outcome, attempted: bool)
    ensures outcome == MissingConfig <==> !ConfigComplete(cfg)
    ensures outcome == Crashed(StateNotObject) <==> ConfigComplete(cfg) && LoadState(file).None?
    ensures attempted <==>
      ConfigComplete(cfg) && LoadState(file).Some? && browse.Read? && Attempts(cfg, LoadState(file).value, browse.text)
    ensures outcome == Crashed(BrowserError) <==>
      ConfigComplete(cfg) && LoadState(file).Some? && (browse.BrowserFails? || (attempted && BookTop(browse.page).Raised?))
    ensures outcome.Done? ==>
      && LoadState(file).Some? && browse.Read?
      && (attempted ==> BookTop(browse.page).Returned?)
      && outcome == Finished(cfg, LoadState(file).value, browse.text,
           if attempted then Some(BookTop(browse.page).result) else None, now, digest, posts)
  {
    attempted := false;
    if !ConfigComplete(cfg) {
      return MissingConfig, false;
    }
    var state: State;
    match file {
      case Missing =>
        state := map[];
      case Unreadable =>
        state := map[];
      case Stored(doc) =>
        match doc {
          case NotObject =>
            return Crashed(StateNotObject), false;
          case Object(fields) =>
            state := fields;
        }
    }
    assert LoadState(file) == Some(state);
    if browse.BrowserFails? {
      return Crashed(BrowserError), false;
    }
    outcome, attempted := Conclude(cfg, state, browse.text, browse.page, now, digest, posts);
  }

  /**
   * The part of `run_check()` after the calendar text is read: the booking
   * attempt, the state update and the notifications.
   */
  method Conclude(
    cfg: Config, state: State, text: string, page: BookingPage,
    now: string, digest: string -> string, posts: (Who, string) -> bool)
    returns (outcome: Outcome, attempted: bool)
    ensures attempted <==> Attempts(cfg, state, text)
    ensures outcome.Crashed? <==> attempted && BookTop(page).Raised?
    ensures outcome.Crashed? ==> outcome.cause == BrowserError
    ensures outcome != MissingConfig
    ensures outcome.Done? ==>
      && (attempted ==> BookTop(page).Returned?)
      && outcome == Finished(cfg, state, text, if attempted then Some(BookTop(page).result) else None, now, digest, posts)
  {
    attempted := false;
    var alreadyBooked := Flag(state, "booked");
    var booking: Option<BookingResult> := None;
    if cfg.autoBook && !alreadyBooked && HasAvailability(text) {
      attempted := true;
      var a, _, _ := AutoBookTopSchedule(page);
      if a.Raised? {
        return Crashed(BrowserError), true;
      }
      booking := Some(a.result);
    }

    var availableNow := HasAvailability(text);
    var wasAvailable := Flag(state, "available");
    var saved := state["last_seen" := Str(now)];
    saved := saved["available" := Bool(availableNow)];
    saved := saved["calendar_hash" := Str(CalcHash(digest, text))];
    if booking.Some? && booking.value.success {
      saved := saved["booked" := Bool(true)];
    }
    var notices := Announce(cfg, posts, alreadyBooked, wasAvailable, availableNow, booking);
    outcome := Done(saved, notices);
  }

  // ---------------------------------------------------------------------------
  // What the next cycle sees

  /**
   * The saved state tells the next cycle what this one saw: it was
   * available iff this cycle's text showed availability, and once booked it
   * stays booked, so booking is never tried again.
   */
  lemma NextCycleSees(cfg: Config, state: State, now: string, available: bool, hash: string, booked: bool, text2: string)
    ensures var next := Updated(state, now, available, hash, booked);
      && (Flag(next, "available") <==> available)
      && (booked || Flag(state, "booked") ==> Flag(next, "booked") && !Attempts(cfg, next, text2))
      && (!booked ==> (Flag(next, "booked") <==> Flag(state, "booked")))
  {
    var next := Updated(state, now, available, hash, booked);
    assert "booked" !in Written(false);
  }

  // ---------------------------------------------------------------------------
  // Notifications

  /** After a successful booking the owner hears about the booking and the friend that there are spots; nothing else is sent. */
  lemma SuccessNotices(cfg: Config, posts: (Who, string) -> bool, alreadyBooked: bool, wasAvailable: bool, availableNow: bool, r: BookingResult)
    requires r.success
    ensures var n := CycleNotices(cfg, posts, alreadyBooked, wasAvailable, availableNow, Some(r));
      var ch := cfg.channels;
      && SentTo(n, Owner) == (if Configured(ch.owner) then [ch.owner.prefix + BookedMsg] else [])
      && SentTo(n, Friend) == (if Configured(ch.friend) then [ch.friend.prefix + SpotsMsg] else [])
    ensures var n := CycleNotices(cfg, posts, alreadyBooked, wasAvailable, availableNow, Some(r));
      var ch := cfg.channels;
      Printed(n) == (if Delivers(ch, Owner, posts, BookedMsg) then [] else [BookedMsg])
        + (if Configured(ch.friend) && !Delivers(ch, Friend, posts, SpotsMsg) then [SpotsMsg] else [])
    ensures var n := CycleNotices(cfg, posts, alreadyBooked, wasAvailable, availableNow, Some(r));
      forall i, j :: 0 <= i < j < |n| && n[i].Send? && n[j].Send? ==> !(n[i].to == Friend && n[j].to == Owner)
  {
    OwnerThenFriendNotices(cfg.channels, posts, BookedMsg, SpotsMsg);
  }

  /**
   * Without a transition to available (and without a booking), the only
   * Telegram message is the test ping, and the cycle ends by printing the
   * "no news" line; while days stay available nothing at all is sent.
   */
  lemma QuietWithoutTransition(cfg: Config, posts: (Who, string) -> bool, alreadyBooked: bool, wasAvailable: bool, availableNow: bool, booking: Option<BookingResult>)
    requires !(booking.Some? && booking.value.success)
    requires wasAvailable || !availableNow
    ensures var n := CycleNotices(cfg, posts, alreadyBooked, wasAvailable, availableNow, booking);
      && n != [] && n[|n| - 1] == Print(InfoMsg)
      && (forall e :: e in n && e.Send? ==> e.text == RecipientOf(cfg.channels, e.to).prefix + PingMsg)
      && (!cfg.testPing || availableNow ==> n == [Print(InfoMsg)])
  {
  }

  /**
   * In test mode, a cycle without a successful booking that sees no days
   * sends the test ping to every configured recipient, prints it when no
   * send was delivered, and ends by printing the "no news" line.
   */
  lemma TestPingSent(cfg: Config, posts: (Who, string) -> bool, alreadyBooked: bool, wasAvailable: bool, booking: Option<BookingResult>)
    requires cfg.testPing && !(booking.Some? && booking.value.success)
    ensures var n := CycleNotices(cfg, posts, alreadyBooked, wasAvailable, false, booking);
      var ch := cfg.channels;
      && SentTo(n, Owner) == (if Configured(ch.owner) then [ch.owner.prefix + PingMsg] else [])
      && SentTo(n, Friend) == (if Configured(ch.friend) then [ch.friend.prefix + PingMsg] else [])
      && Printed(n) == (if Delivers(ch, Owner, posts, PingMsg) || Delivers(ch, Friend, posts, PingMsg) then [] else [PingMsg]) + [InfoMsg]
  {
    PingNoticesAre(cfg, posts, alreadyBooked, wasAvailable, booking);
    BothNoticeThenPrint(cfg.channels, posts, PingMsg, InfoMsg);
  }

  /** While no days are available the test ping goes through `notify_both`, and the info line follows. */
  lemma PingNoticesAre(cfg: Config, posts: (Who, string) -> bool, alreadyBooked: bool, wasAvailable: bool, booking: Option<BookingResult>)
    requires cfg.testPing && !(booking.Some? && booking.value.success)
    ensures CycleNotices(cfg, posts, alreadyBooked, wasAvailable, false, booking)
      == BothNotice(cfg.channels, posts, PingMsg) + [Print(InfoMsg)]
  {
  }

  /**
   * When booking was tried and failed on the transition to available, the
   * owner is warned with the reason and the friend hears that there are
   * spots.
   */
  lemma FailureReported(cfg: Config, posts: (Who, string) -> bool, wasAvailable: bool, r: BookingResult)
    requires !r.success && !wasAvailable && cfg.autoBook
    ensures var n := CycleNotices(cfg, posts, false, wasAvailable, true, Some(r));
      var ch := cfg.channels;
      && SentTo(n, Owner) == (if Configured(ch.owner) then [ch.owner.prefix + FailedMsg(r.reason)] else [])
      && SentTo(n, Friend) == (if Configured(ch.friend) then [ch.friend.prefix + SpotsMsg] else [])
      && Printed(n) == (if Delivers(ch, Owner, posts, FailedMsg(r.reason)) then [] else [FailedMsg(r.reason)])
        + (if Configured(ch.friend) && !Delivers(ch, Friend, posts, SpotsMsg) then [SpotsMsg] else [])
  {
    FailureNoticesAre(cfg, posts, wasAvailable, r);
    OwnerThenFriendNotices(cfg.channels, posts, FailedMsg(r.reason), SpotsMsg);
  }

  /** On the transition after a failed booking, the cycle's notices are `notify_self` of the warning, then `notify_friend`. */
  lemma FailureNoticesAre(cfg: Config, posts: (Who, string) -> bool, wasAvailable: bool, r: BookingResult)
    requires !r.success && !wasAvailable && cfg.autoBook
    ensures CycleNotices(cfg, posts, false, wasAvailable, true, Some(r))
      == OwnerNotice(cfg.channels, posts, FailedMsg(r.reason)) + FriendNotice(cfg.channels, posts, SpotsMsg)
  {
    var ch := cfg.channels;
    var o, f := OwnerNotice(ch, posts, FailedMsg(r.reason)), FriendNotice(ch, posts, SpotsMsg);
    assert PingNotices(cfg, posts, true) == [];
    assert NewsNotices(cfg, posts, false, wasAvailable, true, Some(r)) == o + f;
    assert [] + (o + f) == o + f;
  }

  /**
   * When auto-booking is off (or a booking already exists), the transition
   * to available is broadcast to both recipients, and printed when neither
   * send was delivered.
   */
  lemma BroadcastWithoutAutoBook(cfg: Config, posts: (Who, string) -> bool, alreadyBooked: bool, booking: Option<BookingResult>)
    requires !(cfg.autoBook && !alreadyBooked) && !(booking.Some? && booking.value.success)
    ensures var n := CycleNotices(cfg, posts, alreadyBooked, false, true, booking);
      var ch := cfg.channels;
      && SentTo(n, Owner) == (if Configured(ch.owner) then [ch.owner.prefix + NowMsg] else [])
      && SentTo(n, Friend) == (if Configured(ch.friend) then [ch.friend.prefix + NowMsg] else [])
      && Printed(n) == (if AnyDelivered(n) then [] else [NowMsg])
  {
    var b := BothNotice(cfg.channels, posts, NowMsg);
    BothNoticeRouting(cfg.channels, posts, NowMsg);
    assert PingNotices(cfg, posts, true) == [];
    assert NewsNotices(cfg, posts, alreadyBooked, false, true, booking) == b;
    assert [] + b == b;
    assert CycleNotices(cfg, posts, alreadyBooked, false, true, booking) == b;
  }

  /**
   * The friend only ever hears that there are spots, that days are
   * available, or the test ping: never about the owner's booking.
   */
  lemma FriendHearsOnlyAvailability(cfg: Config, posts: (Who, string) -> bool, alreadyBooked: bool, wasAvailable: bool, availableNow: bool, booking: Option<BookingResult>)
    ensures var n := CycleNotices(cfg, posts, alreadyBooked, wasAvailable, availableNow, booking);
      var p := cfg.channels.friend.prefix;
      forall e :: e in n && e.Send? && e.to == Friend ==> e.text in {p + SpotsMsg, p + NowMsg, p + PingMsg}
  {
  }

  /** A saved state that does not record a booking never stops the next cycle from trying. */
  lemma RetryAfterFailure(cfg: Config, state: State, now: string, available: bool, hash: string, text2: string)
    requires !Flag(state, "booked") && cfg.autoBook && HasAvailability(text2)
    ensures Attempts(cfg, Updated(state, now, available, hash, false), text2)
  {
    NextCycleSees(cfg, state, now, available, hash, false, text2);
  }
}
