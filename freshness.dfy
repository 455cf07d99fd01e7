/** The freshness rule of `update_if_needed` (the same in app/db.py and
    db.py): the knowledge store is refreshed when the `last_updated` meta
    value is absent or empty, or is more than four days old. Timestamps are
    whole seconds; the ISO-8601 text that the source stores is modelled as
    the decimal digits of that number. */
module Freshness {
  import opened Wrappers

  /** `timedelta(days=4)`, in seconds. */
  const RefreshInterval: nat := 4 * 24 * 60 * 60

  /** The meta key that records the last successful ingestion. */
  const LastUpdatedKey: string := "last_updated"

  predicate IsDigit(c: char)
  {
    '0' <= c <= '9'
  }

  function DigitChar(d: nat): (c: char)
    requires d < 10
    ensures IsDigit(c)
  {
    ('0' as int + d) as char
  }

  /** `now.isoformat()`: the timestamp written out in decimal. */
  function FormatTimestamp(t: nat): (s: string)
    ensures s != [] && forall i :: 0 <= i < |s| ==> IsDigit(s[i])
  {
    if t < 10 then [DigitChar(t)] else FormatTimestamp(t / 10) + [DigitChar(t % 10)]
  }

  /** The number that a non-empty string of decimal digits denotes. */
  function DigitsValue(s: string): nat
    requires s != [] && forall i :: 0 <= i < |s| ==> IsDigit(s[i])
  {
    assert IsDigit(s[|s| - 1]);
    var d := s[|s| - 1] as int - '0' as int;
    if |s| == 1 then d else 10 * DigitsValue(s[..|s| - 1]) + d
  }

  /** `datetime.fromisoformat(s)`: a well-formed value is read back, anything
      else is rejected (the source raises `ValueError`). */
  function ParseTimestamp(s: string): (t: Option<nat>)
    ensures t.Some? <==> s != [] && forall i :: 0 <= i < |s| ==> IsDigit(s[i])
  {
    if s != [] && forall i :: 0 <= i < |s| ==> IsDigit(s[i]) then Some(DigitsValue(s)) else None
  }

  /** Reading back a written timestamp gives the timestamp. */
  lemma {:induction false} ParseFormat(t: nat)
    ensures ParseTimestamp(FormatTimestamp(t)) == Some(t)
  {
    if 10 <= t {
      var prefix := FormatTimestamp(t / 10);
      ParseFormat(t / 10);
      assert (prefix + [DigitChar(t % 10)])[..|prefix|] == prefix;
    }
  }

  /** What a freshness check decides. `Unreadable` is the source's
      `ValueError` from a stored value it cannot parse. */
  datatype Decision = Refresh | UpToDate | Unreadable

  /** The test of `update_if_needed` on the stored `last_updated` value
      (None when the key is absent) at time `now`. */
  function Decide(lastUpdated: Option<string>, now: nat): Decision
  {
    if lastUpdated.None? || lastUpdated.value == [] then Refresh
    else match ParseTimestamp(lastUpdated.value)
      case None => Unreadable
      case Some(t) => if now - t > RefreshInterval then Refresh else UpToDate
  }

  /** The store is refreshed exactly when the value is absent or empty, or
      records a time more than four days before `now`. */
  lemma DecideRefresh(lastUpdated: Option<string>, now: nat)
    ensures Decide(lastUpdated, now) == Refresh <==>
      || lastUpdated.None? || lastUpdated.value == []
      || (ParseTimestamp(lastUpdated.value).Some? && now - ParseTimestamp(lastUpdated.value).value > RefreshInterval)
  {
  }

  /** After a refresh stamped `t`, the next check at `now` refreshes again
      only when more than four days have passed: a check right after a
      refresh does nothing. */
  lemma FreshAfterSave(t: nat, now: nat)
    ensures Decide(Some(FormatTimestamp(t)), now) == if now - t > RefreshInterval then Refresh else UpToDate
  {
    ParseFormat(t);
  }

  /** A store that is stale stays stale as time goes on. */
  lemma StaleStaysStale(lastUpdated: Option<string>, now: nat, later: nat)
    requires Decide(lastUpdated, now) == Refresh && now <= later
    ensures Decide(lastUpdated, later) == Refresh
  {
  }
}
