/** One run of limiter.py's `main`, without the RPC, SQLite and logging
    plumbing: check that a limit is configured, evaluate one window per
    configured limit, bring the client's alt-speed flag in line with the verdict
    and record the run's sample. */
module Limiter {
  import opened Wrappers
  import opened Units
  import opened TimeSlices
  import opened Throttle

  /** Window offsets in seconds: `timedelta(days=1)`, `timedelta(weeks=1)` and
      `timedelta(days=30)`. */
  const Day: int := 86400
  const Week: int := 7 * Day
  const ThirtyDays: int := 30 * Day

  /** The three optional limit strings of the command line. */
  datatype Config = Config(dailyLimit: Option<string>, weeklyLimit: Option<string>,
                           monthlyLimit: Option<string>)

  /** Why a run stops without finishing. */
  datatype RunError =
    | NoLimit                  // no limit given on the command line
    | BadLimit(e: ParseError)  // a limit string that parse_size refuses
    | DuplicateTimestamp       // a row with the run's timestamp already exists

  /** Python truthiness of an optional argument: given and not empty. */
  predicate Configured(limit: Option<string>)
  {
    limit.Some? && limit.value != ""
  }

  /** The check at the end of `parse_args`: at least one limit must be given. */
  function CheckLimits(cfg: Config): (r: Result<Config, RunError>)
    ensures r.Err? <==>
      (cfg.dailyLimit.None? || cfg.dailyLimit == Some("")) &&
      (cfg.weeklyLimit.None? || cfg.weeklyLimit == Some("")) &&
      (cfg.monthlyLimit.None? || cfg.monthlyLimit == Some(""))
    ensures r.Err? ==> r.error == NoLimit
    ensures r.Ok? ==> r.value == cfg
  {
    if Configured(cfg.monthlyLimit) || Configured(cfg.weeklyLimit) || Configured(cfg.dailyLimit) then
      Ok(cfg)
    else
      Err(NoLimit)
  }

  /** A window: the reference time growth is measured from, and its cap. */
  datatype Window = Window(pastReference: int, limit: string)

  /** The windows a run evaluates, in the order `main` evaluates them: one per
      configured limit, reaching back a day, a week and thirty days from now. */
  function Windows(cfg: Config, now: int): (ws: seq<Window>)
    ensures |ws| <= 3
    ensures |ws| == (if Configured(cfg.dailyLimit) then 1 else 0) +
                    (if Configured(cfg.weeklyLimit) then 1 else 0) +
                    (if Configured(cfg.monthlyLimit) then 1 else 0)
    ensures Configured(cfg.dailyLimit) ==> Window(now - Day, cfg.dailyLimit.value) in ws
    ensures Configured(cfg.weeklyLimit) ==> Window(now - Week, cfg.weeklyLimit.value) in ws
    ensures Configured(cfg.monthlyLimit) ==> Window(now - ThirtyDays, cfg.monthlyLimit.value) in ws
  {
    DailyWindows(cfg, now) + WeeklyWindows(cfg, now) + MonthlyWindows(cfg, now)
  }

  /** The windows come in the order `main` evaluates them, daily, weekly and
      monthly: each reaches further back than the one before it. */
  lemma WindowsOrder(cfg: Config, now: int)
    ensures forall i, j :: 0 <= i < j < |Windows(cfg, now)| ==>
      Windows(cfg, now)[j].pastReference < Windows(cfg, now)[i].pastReference
  {
  }

  function DailyWindows(cfg: Config, now: int): seq<Window>
  {
    if Configured(cfg.dailyLimit) then [Window(now - Day, cfg.dailyLimit.value)] else []
  }

  function WeeklyWindows(cfg: Config, now: int): seq<Window>
  {
    if Configured(cfg.weeklyLimit) then [Window(now - Week, cfg.weeklyLimit.value)] else []
  }

  function MonthlyWindows(cfg: Config, now: int): seq<Window>
  {
    if Configured(cfg.monthlyLimit) then [Window(now - ThirtyDays, cfg.monthlyLimit.value)] else []
  }

  /** `throttle |= should_throttle(…)` over the windows in order: the first
      window whose limit cannot be read stops the run with that error; otherwise
      the verdicts are or-ed. */
  function Verdict(rows: seq<Sample>, ws: seq<Window>, currentUsage: int): Result<bool, ParseError>
  {
    if ws == [] then Ok(false)
    else
      match ShouldThrottle(rows, ws[0].pastReference, currentUsage, ws[0].limit)
      case Err(e) => Err(e)
      case Ok(b) =>
        match Verdict(rows, ws[1..], currentUsage)
        case Err(e) => Err(e)
        case Ok(rest) => Ok(b || rest)
  }

  /** The combined verdict is read only when every window's verdict is: `|=`
      does not short-circuit, so a later window's limit is read, and can stop
      the run, even after an earlier window already decided to throttle. */
  lemma {:induction false} VerdictReadsEveryWindow(rows: seq<Sample>, ws: seq<Window>, currentUsage: int)
    ensures Verdict(rows, ws, currentUsage).Ok? <==>
      forall i :: 0 <= i < |ws| ==> ShouldThrottle(rows, ws[i].pastReference, currentUsage, ws[i].limit).Ok?
  {
    if ws != [] {
      VerdictReadsEveryWindow(rows, ws[1..], currentUsage);
      assert forall i :: 1 <= i < |ws| ==> ws[i] == ws[1..][i - 1];
    }
  }

  /** When it is read, the combined verdict is true exactly when some window's
      verdict is true. */
  lemma {:induction false} VerdictIsAnyWindow(rows: seq<Sample>, ws: seq<Window>, currentUsage: int)
    requires Verdict(rows, ws, currentUsage).Ok?
    ensures Verdict(rows, ws, currentUsage).value <==>
      exists i :: 0 <= i < |ws| &&
        ShouldThrottle(rows, ws[i].pastReference, currentUsage, ws[i].limit) == Ok(true)
  {
    if ws != [] {
      var tail := ws[1..];
      VerdictIsAnyWindow(rows, tail, currentUsage);
      if Verdict(rows, tail, currentUsage).value {
        var i :| 0 <= i < |tail| &&
          ShouldThrottle(rows, tail[i].pastReference, currentUsage, tail[i].limit) == Ok(true);
        assert ws[i + 1] == tail[i];
      }
      if exists i :: 0 <= i < |ws| &&
          ShouldThrottle(rows, ws[i].pastReference, currentUsage, ws[i].limit) == Ok(true) {
        var i :| 0 <= i < |ws| &&
          ShouldThrottle(rows, ws[i].pastReference, currentUsage, ws[i].limit) == Ok(true);
        if i > 0 {
          assert ws[i] == tail[i - 1];
        }
      }
    }
  }

  /** The verdict over two runs of windows, one after the other. */
  lemma {:induction false} VerdictAppend(rows: seq<Sample>, a: seq<Window>, b: seq<Window>, currentUsage: int)
    ensures Verdict(rows, a + b, currentUsage) ==
      match Verdict(rows, a, currentUsage)
      case Err(e) => Err(e)
      case Ok(x) =>
        match Verdict(rows, b, currentUsage)
        case Err(e) => Err(e)
        case Ok(y) => Ok(x || y)
  {
    if a == [] {
      assert a + b == b;
    } else {
      assert (a + b)[0] == a[0];
      assert (a + b)[1..] == a[1..] + b;
      VerdictAppend(rows, a[1..], b, currentUsage);
    }
  }

  lemma VerdictOfOne(rows: seq<Sample>, w: Window, currentUsage: int)
    ensures Verdict(rows, [w], currentUsage) == ShouldThrottle(rows, w.pastReference, currentUsage, w.limit)
  {
    assert [w][1..] == [];
  }

  /** On an empty table no window throttles and no limit is read, so the
      first run never throttles, whatever the limits say. */
  lemma {:induction false} EmptyTableNeverThrottles(ws: seq<Window>, currentUsage: int)
    ensures Verdict([], ws, currentUsage) == Ok(false)
  {
    if ws != [] {
      EmptyTableNeverThrottles(ws[1..], currentUsage);
    }
  }

  /** The `throttle |= should_throttle(…)` statements of `main`: each
      configured limit in turn, daily, weekly, monthly, stopping at the first
      limit that cannot be read. */
  method Decide(cfg: Config, now: int, currentUsage: int, rows: seq<Sample>)
    returns (r: Result<bool, ParseError>)
    ensures r == Verdict(rows, Windows(cfg, now), currentUsage)
  {
    ghost var d, w, m := DailyWindows(cfg, now), WeeklyWindows(cfg, now), MonthlyWindows(cfg, now);
    assert Windows(cfg, now) == d + w + m;
    VerdictAppend(rows, d + w, m, currentUsage);
    VerdictAppend(rows, d, w, currentUsage);
    var throttle := false;
    if Configured(cfg.dailyLimit) {
      var v := ShouldThrottle(rows, now - Day, currentUsage, cfg.dailyLimit.value);
      VerdictOfOne(rows, d[0], currentUsage);
      if v.Err? {
        return Err(v.error);
      }
      throttle := throttle || v.value;
    }
    assert Verdict(rows, d, currentUsage) == Ok(throttle);
    if Configured(cfg.weeklyLimit) {
      var v := ShouldThrottle(rows, now - Week, currentUsage, cfg.weeklyLimit.value);
      VerdictOfOne(rows, w[0], currentUsage);
      if v.Err? {
        return Err(v.error);
      }
      throttle := throttle || v.value;
    }
    assert Verdict(rows, d + w, currentUsage) == Ok(throttle);
    if Configured(cfg.monthlyLimit) {
      var v := ShouldThrottle(rows, now - ThirtyDays, currentUsage, cfg.monthlyLimit.value);
      VerdictOfOne(rows, m[0], currentUsage);
      if v.Err? {
        return Err(v.error);
      }
      throttle := throttle || v.value;
    }
    return Ok(throttle);
  }

  /** The torrent client's session, reduced to its alt-speed flag. `writes`
      records every `set_session(alt_speed_enabled=…)` call in order. */
  class Session {
    var altSpeedEnabled: bool
    ghost var writes: seq<bool>

    constructor (enabled: bool)
      ensures altSpeedEnabled == enabled && writes == []
    {
      altSpeedEnabled := enabled;
      writes := [];
    }

    method SetAltSpeed(enabled: bool)
      modifies this
      ensures altSpeedEnabled == enabled
      ensures writes == old(writes) + [enabled]
    {
      altSpeedEnabled := enabled;
      writes := writes + [enabled];
    }
  }

  /** One run of `main` at time `now` with the client's counter at
      `currentUsage`. Without a limit nothing happens; a limit that cannot be
      read stops the run before the client or the table is touched. Otherwise
      the client's flag ends equal to the verdict, written only when it
      differed, and then the run's row is saved: a row with the same timestamp
      makes the save fail after the flag was already written. */
  method Run(cfg: Config, now: int, currentUsage: int, client: Session, table: TimeSliceTable)
    returns (r: Result<bool, RunError>)
    requires table.Valid()
    modifies client, table
    ensures table.Valid()
    ensures CheckLimits(cfg).Err? ==>
      r == Err(NoLimit) && unchanged(client) && unchanged(table)
    ensures CheckLimits(cfg).Ok? && Verdict(old(table.rows), Windows(cfg, now), currentUsage).Err? ==>
      r == Err(BadLimit(Verdict(old(table.rows), Windows(cfg, now), currentUsage).error)) &&
      unchanged(client) && unchanged(table)
    ensures CheckLimits(cfg).Ok? && Verdict(old(table.rows), Windows(cfg, now), currentUsage).Ok? ==>
      var throttle := Verdict(old(table.rows), Windows(cfg, now), currentUsage).value;
      client.altSpeedEnabled == throttle &&
      client.writes == old(client.writes) + (if old(client.altSpeedEnabled) == throttle then [] else [throttle]) &&
      (if HasTimestamp(old(table.rows), now) then
         r == Err(DuplicateTimestamp) && table.rows == old(table.rows)
       else
         r == Ok(throttle) &&
         multiset(table.rows) == multiset(old(table.rows)) + multiset{Sample(now, currentUsage)})
  {
    var checked := CheckLimits(cfg);
    if checked.Err? {
      return Err(NoLimit);
    }
    var verdict := Decide(cfg, now, currentUsage, table.rows);
    if verdict.Err? {
      return Err(BadLimit(verdict.error));
    }
    var throttle := verdict.value;
    if throttle && !client.altSpeedEnabled {
      client.SetAltSpeed(true);
    } else if client.altSpeedEnabled && !throttle {
      client.SetAltSpeed(false);
    }
    var saved := table.Save(Sample(now, currentUsage));
    if !saved {
      return Err(DuplicateTimestamp);
    }
    return Ok(throttle);
  }
}
