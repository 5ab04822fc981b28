// Return-to-results navigation. The browser is an object whose page is
// read through probes and changed only by actions; what each action leads
// to is left to an arbitrary script, so every property below holds for
// every possible behaviour of the site.
module Navigation {
  import opened Wrappers
  import opened Text

  /** What the probes can see at one instant. */
  datatype Page = Page(
    url: Option<string>,       // None when reading the URL raises
    html: Option<string>,      // None when reading the page source raises
    modal: bool,               // `.modal-dialog`
    closable: bool,            // one of the three modal close controls
    challenge: bool,           // `#cf-challenge` or `.cf-challenge`
    turnstile: bool,           // `#cf-chl-widget` or `.cf-turnstile`
    grid: bool,                // one of the three results-row selectors
    resultsBody: bool,         // `tbody[ng-show*='businessList']`
    backButton: bool,          // `button.btn-back`
    returnButton: bool,        // `#btnReturnToSearch`
    filingBack: bool,          // `button[ng-click*='showBusineInfo']`
    navBack: bool)             // `button[ng-click*='navBusinessSearch']`

  /** Everything the browser can be told to do; sleeps are `Wait`. */
  datatype Action =
    | Wait
    | CloseModal
    | ClickBtnBack
    | ClickFilingBack
    | ClickReturn
    | ClickNavBack
    | HistoryBack
    | GoBack

  predicate IsNavigation(a: Action) {
    !(a.Wait? || a.CloseModal?)
  }

  /**
   * The browser: time is the number of actions taken so far, and the
   * counters tally the navigation actions among them.
   */
  class Browser {
    const script: nat -> Page
    var log: seq<Action>
    var historyBacks: nat
    var goBacks: nat
    var navigations: nat

    constructor (script: nat -> Page)
      ensures this.script == script && log == []
      ensures historyBacks == 0 && goBacks == 0 && navigations == 0
    {
      this.script := script;
      log := [];
      historyBacks := 0;
      goBacks := 0;
      navigations := 0;
    }

    function Counters(): (nat, nat, nat)
      reads this
    {
      (historyBacks, goBacks, navigations)
    }

    function Now(): Page
      reads this
    {
      script(|log|)
    }

    method Act(a: Action)
      modifies this
      ensures log == old(log) + [a]
      ensures historyBacks == old(historyBacks) + (if a == HistoryBack then 1 else 0)
      ensures goBacks == old(goBacks) + (if a == GoBack then 1 else 0)
      ensures navigations == old(navigations) + (if IsNavigation(a) then 1 else 0)
    {
      log := log + [a];
      if a == HistoryBack {
        historyBacks := historyBacks + 1;
      }
      if a == GoBack {
        goBacks := goBacks + 1;
      }
      if IsNavigation(a) {
        navigations := navigations + 1;
      }
    }
  }

  function UrlText(p: Page): string {
    p.url.GetOr("")
  }

  /** The results page of the newer navigation: route plus one of three markers. */
  predicate OnSearchResults(p: Page) {
    p.url.Some? && Contains(p.url.value, "BusinessSearch") && p.html.Some? &&
    (Contains(p.html.value, "Business Search Results") ||
     Contains(p.html.value, "Page 1 of") ||
     Contains(p.html.value, "businessList.length  &gt; 0"))
  }

  predicate OnBusinessInfo(p: Page) {
    p.url.Some? && p.html.Some? &&
    (Contains(p.url.value, "BusinessInformation") || Contains(p.html.value, "Business Information</h2>"))
  }

  predicate AtAdvanced(p: Page) {
    Contains(UrlText(p), "AdvancedSearch")
  }

  /** The results page of the step-limited navigation: route plus a grid row. */
  predicate OnResultsGrid(p: Page) {
    Contains(UrlText(p), "BusinessSearch") && p.grid
  }

  predicate OnBiPage(p: Page) {
    Contains(UrlText(p), "BusinessInformation") && p.returnButton
  }

  predicate OnFilingHistory(p: Page) {
    p.filingBack
  }

  predicate ChallengeShown(p: Page) { p.challenge }
  predicate TurnstileShown(p: Page) { p.turnstile }

  /**
   * The discipline of the newer navigation: no navigation is issued while
   * the results page shows, and `history.back()` is never issued on the
   * AdvancedSearch page.
   */
  ghost predicate Disciplined(script: nat -> Page, log: seq<Action>, start: nat) {
    start <= |log| &&
    forall i | start <= i < |log| :: Allowed(log[i], script(i))
  }

  /** Whether the newer navigation may issue `a` on page `p`. */
  predicate Allowed(a: Action, p: Page) {
    (IsNavigation(a) ==> !OnSearchResults(p)) && (a == HistoryBack ==> !AtAdvanced(p))
  }

  lemma DisciplineSnoc(script: nat -> Page, log: seq<Action>, start: nat, a: Action)
    requires Disciplined(script, log, start) && Allowed(a, script(|log|))
    ensures Disciplined(script, log + [a], start)
  {
    forall i | start <= i < |log| + 1
      ensures Allowed((log + [a])[i], script(i))
    {
      if i < |log| {
        assert (log + [a])[i] == log[i];
      }
    }
  }

  /** Closes an open modal through whichever close control is present. */
  method CloseAnyModal(b: Browser)
    modifies b
    ensures b.log == old(b.log) + (if old(b.Now()).closable then [CloseModal, Wait] else [])
    ensures b.Counters() == old(b.Counters())
  {
    if b.Now().closable {
      b.Act(CloseModal);
      b.Act(Wait);
    }
  }

  /** Waits out a bot challenge: one-second waits while it shows, until it
      is gone or 300 waits have passed, and nothing else. */
  method WaitOutChallenge(b: Browser, shown: Page -> bool)
    modifies b
    ensures WaitsOnly(old(b.log), b.log) && |b.log| <= |old(b.log)| + 300
    ensures Quiet(old(b.log), b.log)
    ensures b.Counters() == old(b.Counters())
    ensures shown(old(b.Now())) || b.log == old(b.log)
    ensures forall k | |old(b.log)| <= k < |b.log| :: shown(b.script(k))
    ensures shown(old(b.Now())) ==> !shown(b.Now()) || |b.log| == |old(b.log)| + 300
  {
    if shown(b.Now()) {
      var n := 0;
      while n < 300 && shown(b.Now())
        invariant 0 <= n <= 300
        invariant |b.log| == |old(b.log)| + n
        invariant WaitsOnly(old(b.log), b.log)
        invariant forall k | |old(b.log)| <= k < |b.log| :: shown(b.script(k))
        invariant b.Counters() == old(b.Counters())
      {
        ghost var before := b.log;
        b.Act(Wait);
        WaitsOnlySnoc(old(b.log), before);
        n := n + 1;
      }
    }
    WaitsAreQuiet(old(b.log), b.log);
  }

  /** `now` extends `before` by waits only. */
  ghost predicate WaitsOnly(before: seq<Action>, now: seq<Action>) {
    before <= now &&
    forall i | |before| <= i < |now| :: now[i] == Wait
  }

  lemma WaitsOnlySnoc(before: seq<Action>, now: seq<Action>)
    requires WaitsOnly(before, now)
    ensures WaitsOnly(before, now + [Wait])
  {
    assert forall i | 0 <= i < |now| :: (now + [Wait])[i] == now[i];
  }

  lemma WaitsAreQuiet(before: seq<Action>, now: seq<Action>)
    requires WaitsOnly(before, now)
    ensures Quiet(before, now)
  {
  }

  /** `now` extends `before` by actions that do not navigate. */
  ghost predicate Quiet(before: seq<Action>, now: seq<Action>) {
    before <= now &&
    forall i | |before| <= i < |now| :: !IsNavigation(now[i])
  }

  lemma QuietKeepsDiscipline(script: nat -> Page, before: seq<Action>, now: seq<Action>, start: nat)
    requires Disciplined(script, before, start) && Quiet(before, now)
    ensures Disciplined(script, now, start)
  {
    assert forall i | |before| <= i < |now| :: Allowed(now[i], script(i));
    forall i | start <= i < |now|
      ensures Allowed(now[i], script(i))
    {
      if i < |before| {
        assert now[i] == now[..|before|][i];
      }
    }
  }

  /**
   * Up to ten one-second polls for the results page or AdvancedSearch.
   * Some(true): the results page shows; Some(false): AdvancedSearch shows
   * and the results page does not; None: neither within ten polls.
   */
  method PollResults(b: Browser) returns (outcome: Option<bool>)
    modifies b
    ensures WaitsOnly(old(b.log), b.log) && |b.log| <= |old(b.log)| + 10
    ensures Quiet(old(b.log), b.log) && b.Counters() == old(b.Counters())
    ensures outcome == Some(true) ==> OnSearchResults(b.Now())
    ensures outcome == Some(false) ==> !OnSearchResults(b.Now()) && AtAdvanced(b.Now())
    ensures outcome.None? ==> |b.log| == |old(b.log)| + 10
    ensures forall k | |old(b.log)| <= k < |b.log| :: !OnSearchResults(b.script(k)) && !AtAdvanced(b.script(k))
  {
    var k := 0;
    while k < 10
      invariant 0 <= k <= 10 && |b.log| == |old(b.log)| + k
      invariant WaitsOnly(old(b.log), b.log) && b.Counters() == old(b.Counters())
      invariant forall t | |old(b.log)| <= t < |b.log| :: !OnSearchResults(b.script(t)) && !AtAdvanced(b.script(t))
    {
      if OnSearchResults(b.Now()) {
        WaitsAreQuiet(old(b.log), b.log);
        return Some(true);
      }
      if AtAdvanced(b.Now()) {
        WaitsAreQuiet(old(b.log), b.log);
        return Some(false);
      }
      ghost var before := b.log;
      b.Act(Wait);
      WaitsOnlySnoc(old(b.log), before);
      k := k + 1;
    }
    WaitsAreQuiet(old(b.log), b.log);
    return None;
  }

  /** Issues one action the newer navigation allows on the current page. */
  method Issue(b: Browser, a: Action, ghost start: nat)
    requires Disciplined(b.script, b.log, start) && Allowed(a, b.Now())
    modifies b
    ensures b.log == old(b.log) + [a] && Disciplined(b.script, b.log, start)
    ensures b.historyBacks == old(b.historyBacks) + (if a == HistoryBack then 1 else 0)
  {
    DisciplineSnoc(b.script, b.log, start, a);
    b.Act(a);
  }

  /**
   * One step of the `history.back()` fallback: wait out a challenge, stop on
   * the results page or on AdvancedSearch, otherwise go back once and poll.
   * Some(outcome) ends the navigation with that outcome.
   */
  method HistoryStep(b: Browser, ghost start: nat) returns (done: Option<bool>)
    requires Disciplined(b.script, b.log, start)
    modifies b
    ensures old(b.log) <= b.log && Disciplined(b.script, b.log, start)
    ensures b.historyBacks <= old(b.historyBacks) + 1
    ensures done.None? ==> b.historyBacks == old(b.historyBacks) + 1
    ensures done.Some? ==> (done.value <==> OnSearchResults(b.Now()))
    ensures done == Some(false) ==> AtAdvanced(b.Now())
  {
    ghost var before := b.log;
    WaitOutChallenge(b, TurnstileShown);
    QuietKeepsDiscipline(b.script, before, b.log, start);
    if OnSearchResults(b.Now()) {
      return Some(true);
    }
    if AtAdvanced(b.Now()) {
      return Some(false);
    }
    Issue(b, HistoryBack, start);
    Issue(b, Wait, start);
    before := b.log;
    done := PollResults(b);
    QuietKeepsDiscipline(b.script, before, b.log, start);
  }

  /** Step 0 of both newer navigations: close an open modal, then wait a second. */
  method DismissModal(b: Browser)
    modifies b
    ensures Quiet(old(b.log), b.log) && b.Counters() == old(b.Counters())
    ensures !old(b.Now()).modal ==> b.log == old(b.log)
  {
    if b.Now().modal {
      CloseAnyModal(b);
      b.Act(Wait);
      assert b.log == old(b.log) + (if old(b.Now()).closable then [CloseModal, Wait] else []) + [Wait];
    }
  }

  /**
   * The first steps of `click_back_with_cf`: close a modal, stop if the
   * results page already shows, and on Business Information use its back
   * button and poll. Some(outcome) ends the navigation with that outcome.
   */
  method LeaveDetailPage(b: Browser, ghost start: nat) returns (done: Option<bool>)
    requires Disciplined(b.script, b.log, start)
    modifies b
    ensures old(b.log) <= b.log && Disciplined(b.script, b.log, start)
    ensures b.historyBacks == old(b.historyBacks)
    ensures done.Some? ==> (done.value <==> OnSearchResults(b.Now()))
    ensures done == Some(false) ==> AtAdvanced(b.Now())
    ensures !old(b.Now()).modal && OnSearchResults(old(b.Now())) ==> done == Some(true) && b.log == old(b.log)
  {
    ghost var before := b.log;
    DismissModal(b);
    QuietKeepsDiscipline(b.script, before, b.log, start);
    if OnSearchResults(b.Now()) {
      return Some(true);
    }
    done := None;
    if OnBusinessInfo(b.Now()) && b.Now().backButton {
      Issue(b, ClickBtnBack, start);
      Issue(b, Wait, start);
      before := b.log;
      done := PollResults(b);
      QuietKeepsDiscipline(b.script, before, b.log, start);
    }
  }

  /**
   * `click_back_with_cf`: close a modal, stop if the results page already
   * shows, try the Business Information back button, then at most three
   * `history.back()` steps, each followed by polling.
   */
  method ClickBackWithCf(b: Browser) returns (ok: bool)
    modifies b
    ensures old(b.log) <= b.log && Disciplined(b.script, b.log, |old(b.log)|)
    ensures ok <==> OnSearchResults(b.Now())
    ensures b.historyBacks <= old(b.historyBacks) + 3
    ensures !ok ==> AtAdvanced(b.Now()) || b.historyBacks == old(b.historyBacks) + 3
    ensures !old(b.Now()).modal && OnSearchResults(old(b.Now())) ==> ok && b.log == old(b.log)
  {
    ghost var start := |b.log|;
    var done := LeaveDetailPage(b, start);
    if done.Some? {
      return done.value;
    }
    var step := 0;
    while step < 3
      invariant 0 <= step <= 3
      invariant old(b.log) <= b.log && Disciplined(b.script, b.log, start)
      invariant b.historyBacks == old(b.historyBacks) + step
    {
      var done := HistoryStep(b, start);
      if done.Some? {
        return done.value;
      }
      step := step + 1;
    }
    ok := OnSearchResults(b.Now());
  }

  // ---------------------------------------------------------------------
  // The step-limited navigation (`click_back_with_cf3`)

  /** Neither the Filing History nor the Business Information heuristic matches. */
  predicate Unmarked(p: Page) {
    !OnFilingHistory(p) && !OnBiPage(p)
  }

  /**
   * Whether issuing `a` at time `i` follows the order of preference: the
   * Filing History back control first, then the return button, then
   * `history.back()`; the last is issued either on an unmarked page or one
   * wait after an unmarked BusinessSearch page. Nothing navigates while the
   * results grid shows.
   */
  ghost predicate Preferred(script: nat -> Page, a: Action, i: nat, start: nat) {
    IsNavigation(a) ==>
      !OnResultsGrid(script(i)) &&
      (a.ClickFilingBack? || a.ClickReturn? || a.HistoryBack?) &&
      (a == ClickFilingBack ==> OnFilingHistory(script(i))) &&
      (a == ClickReturn ==> !OnFilingHistory(script(i)) && OnBiPage(script(i))) &&
      (a == HistoryBack ==>
         Unmarked(script(i)) ||
         (start < i && Unmarked(script(i - 1)) && Contains(UrlText(script(i - 1)), "BusinessSearch")))
  }

  ghost predicate Ordered(script: nat -> Page, log: seq<Action>, start: nat) {
    start <= |log| &&
    forall i | start <= i < |log| :: Preferred(script, log[i], i, start)
  }

  lemma QuietKeepsOrder(script: nat -> Page, before: seq<Action>, now: seq<Action>, start: nat)
    requires Ordered(script, before, start) && Quiet(before, now)
    ensures Ordered(script, now, start)
  {
    assert forall i | |before| <= i < |now| :: Preferred(script, now[i], i, start);
    forall i | start <= i < |now|
      ensures Preferred(script, now[i], i, start)
    {
      if i < |before| {
        assert now[i] == now[..|before|][i];
      }
    }
  }

  /** Issues one action that follows the order of preference at the current time. */
  method IssueInOrder(b: Browser, a: Action, ghost start: nat)
    requires Ordered(b.script, b.log, start) && Preferred(b.script, a, |b.log|, start)
    modifies b
    ensures b.log == old(b.log) + [a] && Ordered(b.script, b.log, start)
    ensures b.navigations == old(b.navigations) + (if IsNavigation(a) then 1 else 0)
  {
    forall i | start <= i < |b.log| + 1
      ensures Preferred(b.script, (b.log + [a])[i], i, start)
    {
      if i < |b.log| {
        assert (b.log + [a])[i] == b.log[i];
      }
    }
    b.Act(a);
  }

  /**
   * One of the three navigation steps. Some(true): the results grid shows;
   * Some(false): AdvancedSearch was reached after `history.back()`; None:
   * go on with the next step. Every step that does not find the grid first
   * navigates exactly once.
   */
  method NavigationStep(b: Browser, ghost start: nat) returns (done: Option<bool>)
    requires Ordered(b.script, b.log, start)
    modifies b
    ensures old(b.log) <= b.log && Ordered(b.script, b.log, start)
    ensures b.navigations <= old(b.navigations) + 1
    ensures done != Some(true) ==> b.navigations == old(b.navigations) + 1
    ensures done == Some(true) ==> OnResultsGrid(b.Now())
    ensures done == Some(false) ==> !OnResultsGrid(b.Now()) && AtAdvanced(b.Now())
  {
    ghost var before := b.log;
    WaitOutChallenge(b, ChallengeShown);
    QuietKeepsOrder(b.script, before, b.log, start);
    if OnResultsGrid(b.Now()) {
      return Some(true);
    }
    if OnFilingHistory(b.Now()) {
      IssueInOrder(b, ClickFilingBack, start);
      IssueInOrder(b, Wait, start);
      return None;
    }
    if OnBiPage(b.Now()) {
      IssueInOrder(b, ClickReturn, start);
      IssueInOrder(b, Wait, start);
      if OnResultsGrid(b.Now()) {
        return Some(true);
      }
      return None;
    }
    done := LastResort(b, start);
  }

  /**
   * Steps 3 and 4 of a navigation step on an unmarked page: give a
   * BusinessSearch page one more wait, then go back one history entry.
   */
  method LastResort(b: Browser, ghost start: nat) returns (done: Option<bool>)
    requires Ordered(b.script, b.log, start) && Unmarked(b.Now()) && !OnResultsGrid(b.Now())
    modifies b
    ensures old(b.log) <= b.log && Ordered(b.script, b.log, start)
    ensures b.navigations <= old(b.navigations) + 1
    ensures done != Some(true) ==> b.navigations == old(b.navigations) + 1
    ensures done == Some(true) ==> OnResultsGrid(b.Now())
    ensures done == Some(false) ==> !OnResultsGrid(b.Now()) && AtAdvanced(b.Now())
  {
    if Contains(UrlText(b.Now()), "BusinessSearch") {
      IssueInOrder(b, Wait, start);
      if OnResultsGrid(b.Now()) {
        return Some(true);
      }
    }
    IssueInOrder(b, HistoryBack, start);
    IssueInOrder(b, Wait, start);
    if OnResultsGrid(b.Now()) {
      return Some(true);
    }
    if AtAdvanced(b.Now()) {
      return Some(false);
    }
    return None;
  }

  /**
   * `click_back_with_cf3`: at most three navigation steps, each preferring
   * the Filing History back control, then the return button, then
   * `history.back()`, and stopping on AdvancedSearch.
   */
  method ClickBackWithCf3(b: Browser) returns (ok: bool)
    modifies b
    ensures old(b.log) <= b.log && Ordered(b.script, b.log, |old(b.log)|)
    ensures ok <==> OnResultsGrid(b.Now())
    ensures b.navigations <= old(b.navigations) + 3
    ensures !ok ==> AtAdvanced(b.Now()) || b.navigations == old(b.navigations) + 3
    ensures !old(b.Now()).modal && OnResultsGrid(old(b.Now())) ==> ok && b.log == old(b.log)
  {
    ghost var start := |b.log|;
    DismissModal(b);
    QuietKeepsOrder(b.script, old(b.log), b.log, start);
    if OnResultsGrid(b.Now()) {
      return true;
    }
    var step := 0;
    var stopped := false;
    while step < 3 && !stopped
      invariant 0 <= step <= 3
      invariant old(b.log) <= b.log && Ordered(b.script, b.log, start)
      invariant b.navigations == old(b.navigations) + step
      invariant stopped ==> AtAdvanced(b.Now())
    {
      var done := NavigationStep(b, start);
      if done == Some(true) {
        return true;
      }
      step := step + 1;
      stopped := done == Some(false);
    }
    ok := OnResultsGrid(b.Now());
  }

  // ---------------------------------------------------------------------
  // The older navigation of the first scraper (`click_back_with_cf`)

  /** Which controls the older navigation must have seen when it issued `a` on `p`. */
  predicate LegacyAllowed(a: Action, p: Page) {
    (a == ClickReturn ==> p.returnButton) &&
    (a == ClickFilingBack ==> p.filingBack && !p.returnButton) &&
    (a == ClickNavBack ==> p.navBack && !p.returnButton) &&
    (a == GoBack ==> (!p.returnButton && !p.navBack) || !p.resultsBody) &&
    !a.HistoryBack? && !a.ClickBtnBack? && !a.CloseModal?
  }

  ghost predicate LegacyRun(script: nat -> Page, log: seq<Action>, start: nat) {
    start <= |log| &&
    forall i | start <= i < |log| :: LegacyAllowed(log[i], script(i))
  }

  /** Issues one action the older navigation allows on the current page. */
  method IssueLegacy(b: Browser, a: Action, ghost start: nat)
    requires LegacyRun(b.script, b.log, start) && LegacyAllowed(a, b.Now())
    modifies b
    ensures b.log == old(b.log) + [a] && LegacyRun(b.script, b.log, start)
    ensures b.goBacks == old(b.goBacks) + (if a == GoBack then 1 else 0)
    ensures b.navigations == old(b.navigations) + (if IsNavigation(a) then 1 else 0)
  {
    forall i | start <= i < |b.log| + 1
      ensures LegacyAllowed((b.log + [a])[i], b.script(i))
    {
      if i < |b.log| {
        assert (b.log + [a])[i] == b.log[i];
      }
    }
    b.Act(a);
  }

  /** Clicks a control that leads to the results list, then waits for the list. */
  method ClickAndAwait(b: Browser, control: Action, ghost start: nat)
    requires LegacyRun(b.script, b.log, start) && LegacyAllowed(control, b.Now())
    requires control == ClickReturn || control == ClickNavBack
    modifies b
    ensures b.log == old(b.log) + [control, Wait, Wait] && LegacyRun(b.script, b.log, start)
    ensures b.goBacks == old(b.goBacks) && b.navigations == old(b.navigations) + 1
  {
    IssueLegacy(b, control, start);
    IssueLegacy(b, Wait, start);
    IssueLegacy(b, Wait, start);
  }

  /** The older navigation's last resort: one `go_back()`, a second one if the list is still missing. */
  method GoBackTwice(b: Browser, ghost start: nat)
    requires LegacyRun(b.script, b.log, start) && !b.Now().returnButton && !b.Now().navBack
    modifies b
    ensures old(b.log) <= b.log && LegacyRun(b.script, b.log, start)
    ensures b.goBacks <= old(b.goBacks) + 2 && b.navigations <= old(b.navigations) + 2
  {
    IssueLegacy(b, GoBack, start);
    IssueLegacy(b, Wait, start);
    if !b.Now().resultsBody {
      IssueLegacy(b, GoBack, start);
      IssueLegacy(b, Wait, start);
    }
    IssueLegacy(b, Wait, start);
  }

  /**
   * The older `click_back_with_cf`: nothing when the results list shows;
   * otherwise the return button, else the Filing History back control
   * followed by the return button or the Business Information back button,
   * else at most two `go_back()` calls. Waiting for the results list is a
   * `Wait`; its timeout ends the function the same way.
   */
  method ClickBackLegacy(b: Browser)
    modifies b
    ensures old(b.log) <= b.log && LegacyRun(b.script, b.log, |old(b.log)|)
    ensures old(b.Now()).resultsBody ==> b.log == old(b.log)
    ensures !old(b.Now()).resultsBody && old(b.Now()).returnButton ==>
              b.log == old(b.log) + [ClickReturn, Wait, Wait]
    ensures b.goBacks <= old(b.goBacks) + 2
    ensures b.navigations <= old(b.navigations) + 3
  {
    ghost var start := |b.log|;
    if b.Now().resultsBody {
      return;
    }
    if b.Now().returnButton {
      ClickAndAwait(b, ClickReturn, start);
      return;
    }
    if b.Now().filingBack {
      IssueLegacy(b, ClickFilingBack, start);
      IssueLegacy(b, Wait, start);
    }
    if b.Now().returnButton {
      ClickAndAwait(b, ClickReturn, start);
    } else if b.Now().navBack {
      ClickAndAwait(b, ClickNavBack, start);
    } else {
      GoBackTwice(b, start);
    }
  }
}
