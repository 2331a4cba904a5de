/**
 * `auto_book_top_schedule` (check_pass.py:203-231): click the topmost
 * "Schedule" control, click a confirmation button if one responds, wait for
 * the page to settle and judge success by looking for a success word in the
 * lower-cased page body. There is one click on the top control and one
 * confirmation walk; nothing is retried.
 */
module Booking {
  import opened Wrappers
  import opened Chars
  import opened Resolver
  import opened Ranking

  /** The `{"success": ..., "reason": ...}` record. */
  datatype BookingResult = BookingResult(success: bool, reason: string)

  /** How a booking attempt ends: with a result, or with an exception that escapes to the caller. */
  datatype Attempt = Raised | Returned(result: BookingResult)

  /**
   * The page during booking: the controls ranking sees, whether clicking a
   * control goes through (a failed click raises), which confirmation
   * selectors respond to a click, whether the page reaches network idle in
   * time (otherwise the wait raises), and the body text (`None` when
   * reading it raises).
   */
  datatype BookingPage = BookingPage(
    controls: ControlPage,
    clicks: Loc -> bool,
    confirms: string -> bool,
    settles: bool,
    body: Option<string>)

  const ConfirmSelectors: seq<string> := [
    "button:has-text(\"Confirm\")", "button:has-text(\"Bevestig\")",
    "button:has-text(\"Bevestigen\")", "button:has-text(\"Yes\")", "button:has-text(\"Ja\")",
    "input[type=\"submit\"]"
  ]

  const SuccessWords: seq<string> := ["geboekt", "gepland", "bevestigd", "booked", "scheduled", "confirmed"]

  const NoButtons := "no-schedule-buttons"
  const Ok := "ok"
  const NoSuccessText := "no-success-text"

  /** `any(w in body for w in words)` */
  function AnyWordIn(body: string, words: seq<string>): (r: bool)
    ensures r <==> exists w :: w in words && Contains(body, w)
  {
    if words == [] then false
    else Contains(body, words[0]) || AnyWordIn(body, words[1..])
  }

  /** The body text as the success check sees it: lower-cased, or empty when reading it failed. */
  function BodyText(page: BookingPage): string {
    match page.body
    case None => ""
    case Some(b) => LowerStr(b)
  }

  /** What `auto_book_top_schedule(page)` ends with. */
  function BookTop(page: BookingPage): (a: Attempt)
    ensures Ranked(page.controls) == [] ==> a == Returned(BookingResult(false, NoButtons))
    ensures Ranked(page.controls) != [] ==>
      (a.Raised? <==> !page.clicks(Ranked(page.controls)[0]) || !page.settles)
    ensures Ranked(page.controls) != [] && a.Returned? ==>
      && (a.result.success <==> exists w :: w in SuccessWords && Contains(BodyText(page), w))
      && a.result.reason == (if a.result.success then Ok else NoSuccessText)
  {
    var ranked := Ranked(page.controls);
    if ranked == [] then Returned(BookingResult(false, NoButtons))
    else if !page.clicks(ranked[0]) || !page.settles then Raised
    else
      var ok := AnyWordIn(BodyText(page), SuccessWords);
      Returned(BookingResult(ok, if ok then Ok else NoSuccessText))
  }

  /**
   * `auto_book_top_schedule(page)`: `clicked` is the control clicked, and
   * `confirmed` the confirmation button clicked, if any.
   */
  method AutoBookTopSchedule(page: BookingPage) returns (attempt: Attempt, clicked: Option<Loc>, confirmed: Option<string>)
    ensures attempt == BookTop(page)
    ensures clicked.None? <==> Ranked(page.controls) == []
    ensures clicked.Some? ==> clicked.value == Ranked(page.controls)[0]
    ensures confirmed.Some? ==> clicked.Some? && page.clicks(clicked.value)
    ensures clicked.Some? && page.clicks(clicked.value) ==> IsFirstSuccess(page.confirms, ConfirmSelectors, confirmed)
  {
    var btns := FindScheduleButtonsSorted(page.controls);
    if btns == [] {
      return Returned(BookingResult(false, NoButtons)), None, None;
    }
    clicked := Some(btns[0]);
    if !page.clicks(btns[0]) {
      return Raised, clicked, None;
    }
    var tried;
    confirmed, tried := FirstSuccess(page.confirms, ConfirmSelectors);
    if !page.settles {
      return Raised, clicked, confirmed;
    }
    var body := BodyText(page);
    var ok := AnyWordIn(body, SuccessWords);
    attempt := Returned(BookingResult(ok, if ok then Ok else NoSuccessText));
  }

  /** A body that could not be read never counts as a success. */
  lemma UnreadBodyIsNoSuccess(page: BookingPage)
    requires page.body.None? && BookTop(page).Returned?
    ensures !BookTop(page).result.success
    ensures BookTop(page).result.reason != Ok
    ensures Ranked(page.controls) != [] ==> BookTop(page).result.reason == NoSuccessText
  {
    if Ranked(page.controls) != [] {
      forall w | w in SuccessWords
        ensures !Contains(BodyText(page), w)
      {
        assert |w| > 0;
      }
    }
  }

  /** The success check ignores case: a body in capitals is read like its lower-case form. */
  lemma SuccessIgnoresCase(page: BookingPage, b: string)
    requires page.body == Some(b)
    ensures BodyText(page) == BodyText(page.(body := Some(LowerStr(b))))
  {
    LowerIdempotent(b);
  }

  lemma LowerIdempotent(s: string)
    ensures LowerStr(LowerStr(s)) == LowerStr(s)
  {
    forall i | 0 <= i < |s|
      ensures LowerStr(LowerStr(s))[i] == LowerStr(s)[i]
    {
      var c := s[i];
      if 'A' <= c <= 'Z' {
        assert Lower(c) == (c as int + 32) as char;
      }
    }
  }

  /** For example, a body reading "GEBOEKT" after the click is a success. */
  lemma BookedExample(page: BookingPage)
    requires Ranked(page.controls) != [] && page.clicks(Ranked(page.controls)[0]) && page.settles
    requires page.body == Some("GEBOEKT")
    ensures BookTop(page) == Returned(BookingResult(true, Ok))
  {
    assert LowerStr("GEBOEKT") == "geboekt";
    assert OccursAt("geboekt", "geboekt", 0);
    assert "geboekt" in SuccessWords;
  }
}
