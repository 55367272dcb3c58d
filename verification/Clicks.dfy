/** Touchpad click emulation of windows.rs: a short touch of the touchpad is a click when it ends. */
module Clicks {
  import opened Reports
  import opened Buttons

  /** 150 milliseconds; clock readings are in microseconds. */
  const CLICK_LIMIT: nat := 150 * 1000

  /** Front touches count if the front is the touchpad, else rear touches if the rear is. */
  predicate IsTouching(config: Config, r: MainReport) {
    match (config.frontTouch, config.rearTouch)
    case (Some(Touchpad), _) => r.frontTouch != []
    case (_, Some(Touchpad)) => r.backTouch != []
    case _ => false
  }

  /** One report: whether it touches, and the clock when it is handled. */
  datatype Tick = Tick(touching: bool, now: nat)

  datatype Hold = Hold(touching: bool, start: Option<nat>)

  const RELEASED: Hold := Hold(false, None)

  function Advance(h: Hold, t: Tick): Hold {
    Hold(t.touching,
         if t.touching && !h.touching then Some(t.now)
         else if !t.touching && h.touching then None
         else h.start)
  }

  predicate ClicksOn(h: Hold, t: Tick) {
    !t.touching && h.touching && h.start.Some? && t.now - h.start.value < CLICK_LIMIT
  }

  class VitaDevice {
    var config: Config
    var touchState: bool
    var touchStartTime: Option<nat>

    constructor (config: Config)
      ensures this.config == config && State() == RELEASED
    {
      this.config, touchState, touchStartTime := config, false, None;
    }

    ghost function State(): Hold
      reads this
    {
      Hold(touchState, touchStartTime)
    }

    /** The special buttons of a report: the touchpad click and the PS button. */
    method SendReport(r: MainReport, now: nat) returns (click: bool, psHome: bool)
      modifies this`touchState, this`touchStartTime
      ensures var t := Tick(IsTouching(config, r), now);
        click == ClicksOn(old(State()), t) && State() == Advance(old(State()), t)
      ensures psHome == r.buttons.ps
    {
      click := false;
      var isTouching := IsTouching(config, r);
      if isTouching && !touchState {
        touchStartTime := Some(now);
      } else if !isTouching && touchState {
        if touchStartTime.Some? {
          var duration := if now < touchStartTime.value then 0 else now - touchStartTime.value;
          if duration < CLICK_LIMIT {
            click := true;
          }
        }
        touchStartTime := None;
      }
      psHome := r.buttons.ps;
      touchState := isTouching;
    }
  }

  // ---------- Whole runs ----------

  function HoldAfter(ticks: seq<Tick>): Hold {
    if ticks == [] then RELEASED else Advance(HoldAfter(ticks[..|ticks| - 1]), ticks[|ticks| - 1])
  }

  predicate ClickAt(ticks: seq<Tick>, b: nat) {
    b < |ticks| && ClicksOn(HoldAfter(ticks[..b]), ticks[b])
  }

  /** Reports a to b - 1 all touch, and the touch did not begin before a. */
  predicate Open(ticks: seq<Tick>, a: nat, b: nat) {
    && a < b <= |ticks|
    && (a == 0 || !ticks[a - 1].touching)
    && forall i :: a <= i < b ==> ticks[i].touching
  }

  /** A maximal touch that began with report a and ended with report b. */
  predicate Episode(ticks: seq<Tick>, a: nat, b: nat) {
    Open(ticks, a, b) && b < |ticks| && !ticks[b].touching
  }

  predicate ShortEpisode(ticks: seq<Tick>, a: nat, b: nat) {
    Episode(ticks, a, b) && ticks[b].now - ticks[a].now < CLICK_LIMIT
  }

  lemma OpenExtends(ticks: seq<Tick>, a: nat, b: nat, n: nat)
    requires b <= n <= |ticks|
    ensures Open(ticks[..n], a, b) <==> Open(ticks, a, b)
  {
  }

  /** The device remembers when the touch going on began, and nothing else: a start time is set exactly while
      the touchpad is touched. */
  lemma {:induction false} HoldMeans(ticks: seq<Tick>)
    ensures var h := HoldAfter(ticks);
      && (h.touching <==> ticks != [] && ticks[|ticks| - 1].touching)
      && (h.start.Some? <==> h.touching)
      && (h.touching ==> exists a: nat :: Open(ticks, a, |ticks|) && h.start == Some(ticks[a].now))
  {
    if ticks != [] {
      var n := |ticks| - 1;
      HoldMeans(ticks[..n]);
      if ticks[n].touching {
        if HoldAfter(ticks[..n]).touching {
          var a: nat :| Open(ticks[..n], a, n) && HoldAfter(ticks[..n]).start == Some(ticks[..n][a].now);
          OpenExtends(ticks, a, n, n);
          assert Open(ticks, a, |ticks|);
        } else {
          assert n > 0 ==> !ticks[..n][n - 1].touching;
          assert Open(ticks, n, |ticks|);
        }
      }
    }
  }

  /** An episode is known by its end, and by its beginning. */
  lemma EpisodesAreApart(ticks: seq<Tick>, a: nat, b: nat, a': nat, b': nat)
    requires Open(ticks, a, b) && Open(ticks, a', b')
    ensures b == b' ==> a == a'
    ensures Episode(ticks, a, b) && Episode(ticks, a', b') && a == a' ==> b == b'
  {
  }

  /** A report clicks exactly when it ends a maximal touch shorter than 150 milliseconds. */
  lemma ClickEndsShortEpisode(ticks: seq<Tick>, b: nat)
    ensures ClickAt(ticks, b) <==> exists a: nat :: ShortEpisode(ticks, a, b)
  {
    if b < |ticks| {
      var init := ticks[..b];
      HoldMeans(init);
      forall a: nat ensures Open(init, a, b) <==> Open(ticks, a, b) {
        OpenExtends(ticks, a, b, b);
      }
      if HoldAfter(init).touching && !ticks[b].touching {
        var a: nat :| Open(init, a, b) && HoldAfter(init).start == Some(init[a].now);
        assert Episode(ticks, a, b);
        forall a': nat | Open(ticks, a', b) ensures a' == a {
          EpisodesAreApart(ticks, a, b, a', b);
        }
        assert ClickAt(ticks, b) <==> ShortEpisode(ticks, a, b);
      }
    }
  }

  function ClickSet(ticks: seq<Tick>): set<nat> {
    set b | 0 <= b < |ticks| && ClickAt(ticks, b)
  }

  function ShortEpisodes(ticks: seq<Tick>): set<(nat, nat)> {
    set a, b | 0 <= a < |ticks| && 0 <= b < |ticks| && ShortEpisode(ticks, a, b) :: (a, b)
  }

  lemma {:induction false} SameSize(pairs: set<(nat, nat)>, ends: set<nat>)
    requires forall e :: e in pairs ==> e.1 in ends
    requires forall b :: b in ends ==> exists e :: e in pairs && e.1 == b
    requires forall e, e' :: e in pairs && e' in pairs && e.1 == e'.1 ==> e == e'
    ensures |pairs| == |ends|
    decreases pairs
  {
    if pairs == {} {
      assert ends == {};
    } else {
      var e :| e in pairs;
      forall b | b in ends - {e.1} ensures exists e' :: e' in pairs - {e} && e'.1 == b {
        var e' :| e' in pairs && e'.1 == b;
        assert e' in pairs - {e};
      }
      SameSize(pairs - {e}, ends - {e.1});
    }
  }

  /** Over any run, the clicks and the ended short episodes correspond one to one: every episode ends in its
      own click, every click ends one episode, and there are as many of the one as of the other. */
  lemma ClicksAreShortEpisodes(ticks: seq<Tick>)
    ensures forall e :: e in ShortEpisodes(ticks) ==> e.1 in ClickSet(ticks)
    ensures forall b :: b in ClickSet(ticks) ==> exists e :: e in ShortEpisodes(ticks) && e.1 == b
    ensures forall e, e' :: e in ShortEpisodes(ticks) && e' in ShortEpisodes(ticks) && e.1 == e'.1 ==> e == e'
    ensures |ShortEpisodes(ticks)| == |ClickSet(ticks)|
  {
    forall b: nat ensures ClickAt(ticks, b) <==> exists a: nat :: ShortEpisode(ticks, a, b) {
      ClickEndsShortEpisode(ticks, b);
    }
    forall b | b in ClickSet(ticks) ensures exists e :: e in ShortEpisodes(ticks) && e.1 == b {
      var a: nat :| ShortEpisode(ticks, a, b);
      assert (a, b) in ShortEpisodes(ticks);
    }
    forall e, e' | e in ShortEpisodes(ticks) && e' in ShortEpisodes(ticks) && e.1 == e'.1 ensures e == e' {
      EpisodesAreApart(ticks, e.0, e.1, e'.0, e'.1);
    }
    SameSize(ShortEpisodes(ticks), ClickSet(ticks));
  }

  // ---------- In terms of reports ----------

  /** One call: the configuration in force, the report and the clock. */
  datatype Moment = Moment(config: Config, report: MainReport, now: nat)

  /** The panel configured as touchpad, the front one first, reports a touch. */
  predicate PanelTouched(m: Moment) {
    if m.config.frontTouch.Some? && m.config.frontTouch.value.Touchpad? then |m.report.frontTouch| > 0
    else m.config.rearTouch.Some? && m.config.rearTouch.value.Touchpad? && |m.report.backTouch| > 0
  }

  function Ticks(ms: seq<Moment>): seq<Tick> {
    seq(|ms|, i requires 0 <= i < |ms| => Tick(IsTouching(ms[i].config, ms[i].report), ms[i].now))
  }

  /** A maximal stretch of touched reports from a to b - 1, ended by report b within 150 milliseconds. */
  predicate ShortTouch(ms: seq<Moment>, a: nat, b: nat) {
    && a < b < |ms|
    && (a == 0 || !PanelTouched(ms[a - 1]))
    && (forall i :: a <= i < b ==> PanelTouched(ms[i]))
    && !PanelTouched(ms[b])
    && ms[b].now - ms[a].now < 150 * 1000
  }

  lemma TickOf(ms: seq<Moment>, i: nat)
    requires i < |ms|
    ensures Ticks(ms)[i].touching <==> PanelTouched(ms[i])
    ensures Ticks(ms)[i].now == ms[i].now
  {
  }

  /** Over any run of reports and configurations, a report clicks exactly if it ends a maximal touch of the
      configured panel that was shorter than 150 milliseconds. */
  lemma ReportClicksExactly(ms: seq<Moment>, b: nat)
    ensures ClickAt(Ticks(ms), b) <==> exists a: nat :: ShortTouch(ms, a, b)
  {
    var ticks := Ticks(ms);
    ClickEndsShortEpisode(ticks, b);
    forall i: nat | i < |ms| ensures ticks[i].touching <==> PanelTouched(ms[i]) { TickOf(ms, i); }
    forall a: nat ensures ShortEpisode(ticks, a, b) <==> ShortTouch(ms, a, b) {
      hide PanelTouched, IsTouching;
      if a < b < |ms| && forall i :: a <= i < b ==> PanelTouched(ms[i]) {
        assert forall i :: a <= i < b ==> ticks[i].touching;
      }
    }
  }
}
