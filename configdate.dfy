/**
 * The date setting of the plugin's settings page (admin_setting_configdate): how a submitted
 * value becomes the stored timestamp, and how the stored value is read back.
 */
module ConfigDate {
  import opened Wrappers
  import opened Php

  /** What the settings form submits: the date selectors (each key possibly absent), a bare
      string, or anything else (null, a boolean). */
  datatype SettingInput =
    | DateParts(year: Option<string>, mon: Option<string>, mday: Option<string>,
                hours: Option<string>, minutes: Option<string>)
    | Scalar(s: string)
    | Other

  /** The admin language string 'errorsetting', held by its identifier. */
  const ErrorSetting := "errorsetting"

  /** isset($data[key]) ? (int)$data[key] : 0 */
  function Part(v: Option<string>): int {
    if v.Some? then IntCast(v.value) else 0
  }

  /** The timestamp write_setting computes, or None when it refuses the input. make_timestamp
      is a parameter: the user's time zone is not modelled. */
  function Timestamp(data: SettingInput, makeTimestamp: (int, int, int, int, int) -> int): (r: Option<int>)
    ensures data.Other? ==> r.None?
    ensures data.Scalar? ==> (r.Some? <==> IsNumeric(data.s))
    ensures data.DateParts? && r.Some? ==> data.year.Some? && data.mon.Some? && data.mday.Some?
  {
    match data
    case DateParts(year, mon, mday, hours, minutes) =>
      if Part(year) != 0 && Part(mon) != 0 && Part(mday) != 0
      then Some(makeTimestamp(Part(year), Part(mon), Part(mday), Part(hours), Part(minutes)))
      else None
    case Scalar(s) => if IsNumeric(s) then Some(IntCast(s)) else None
    case Other => None
  }

  /** get_setting on what config_read returns (None when nothing is stored). */
  function SettingValue(stored: Option<string>): (r: int)
    ensures stored.None? ==> r == 0
    ensures stored.Some? && !IsNumeric(stored.value) ==> r == 0
    ensures stored.Some? && IsNumeric(stored.value) ==> r == IntCast(stored.value)
  {
    if stored.Some? && IsNumeric(stored.value) then IntCast(stored.value) else 0
  }

  class DateSetting {
    /** The value config_read gives for this setting: config values are stored as strings. */
    var stored: Option<string>

    constructor(initial: Option<string>)
      ensures stored == initial
    {
      stored := initial;
    }

    function GetSetting(): (r: int)
      reads this
      ensures stored.Some? && IsNumeric(stored.value) ==> r == IntCast(stored.value)
      ensures !(stored.Some? && IsNumeric(stored.value)) ==> r == 0
    {
      SettingValue(stored)
    }

    /** write_setting: classify the input, build the timestamp, then write it. `writeOk` is
        what config_write reports; a failed write is taken to leave the old value. */
    method WriteSetting(data: SettingInput, makeTimestamp: (int, int, int, int, int) -> int, writeOk: bool)
      returns (r: string)
      modifies this
      ensures Timestamp(data, makeTimestamp).None? ==> r == ErrorSetting && stored == old(stored)
      ensures Timestamp(data, makeTimestamp).Some? && writeOk ==>
        r == "" && stored == Some(IntToString(Timestamp(data, makeTimestamp).value))
      ensures Timestamp(data, makeTimestamp).Some? && !writeOk ==> r == ErrorSetting && stored == old(stored)
    {
      var timestamp: int;
      if data.DateParts? {
        var year := if data.year.Some? then IntCast(data.year.value) else 0;
        var mon := if data.mon.Some? then IntCast(data.mon.value) else 0;
        var mday := if data.mday.Some? then IntCast(data.mday.value) else 0;
        var hours := if data.hours.Some? then IntCast(data.hours.value) else 0;
        var minutes := if data.minutes.Some? then IntCast(data.minutes.value) else 0;
        if year != 0 && mon != 0 && mday != 0 {
          timestamp := makeTimestamp(year, mon, mday, hours, minutes);
        } else {
          return ErrorSetting;
        }
      } else if data.Scalar? && IsNumeric(data.s) {
        timestamp := IntCast(data.s);
      } else {
        return ErrorSetting;
      }
      if writeOk {
        stored := Some(IntToString(timestamp));
        r := "";
      } else {
        r := ErrorSetting;
      }
    }
  }

  /** A date with a missing or zero year, month or day is refused. */
  lemma IncompleteDateRefused(data: SettingInput, makeTimestamp: (int, int, int, int, int) -> int)
    requires data.DateParts?
    requires data.year.None? || data.mon.None? || data.mday.None?
           || IntCast(data.year.value) == 0 || IntCast(data.mon.value) == 0 || IntCast(data.mday.value) == 0
    ensures Timestamp(data, makeTimestamp).None?
  {
  }

  /** A complete date is accepted; absent hours and minutes are taken as 0. */
  lemma CompleteDateAccepted(y: string, m: string, d: string, makeTimestamp: (int, int, int, int, int) -> int)
    requires IntCast(y) != 0 && IntCast(m) != 0 && IntCast(d) != 0
    ensures Timestamp(DateParts(Some(y), Some(m), Some(d), None, None), makeTimestamp)
         == Some(makeTimestamp(IntCast(y), IntCast(m), IntCast(d), 0, 0))
  {
  }

  /** A bare string is accepted exactly when it is numeric, and then stored as (int)$data;
      anything that is neither an array nor a string is refused. */
  lemma ScalarInput(s: string, makeTimestamp: (int, int, int, int, int) -> int)
    ensures Timestamp(Scalar(s), makeTimestamp).Some? <==> IsNumeric(s)
    ensures IsNumeric(s) ==> Timestamp(Scalar(s), makeTimestamp) == Some(IntCast(s))
    ensures Timestamp(Other, makeTimestamp).None?
  {
  }

  /** What a successful write stores is what get_setting then reads: the timestamp itself. */
  lemma {:induction false} WriteThenRead(data: SettingInput, makeTimestamp: (int, int, int, int, int) -> int)
    requires Timestamp(data, makeTimestamp).Some?
    ensures SettingValue(Some(IntToString(Timestamp(data, makeTimestamp).value))) == Timestamp(data, makeTimestamp).value
  {
    IntToStringRoundTrip(Timestamp(data, makeTimestamp).value);
  }

  /** Writing a numeric string and reading it back gives (int) of that string. */
  method WriteNumericThenGet(setting: DateSetting, s: string, makeTimestamp: (int, int, int, int, int) -> int)
    returns (r: string, v: int)
    requires IsNumeric(s)
    modifies setting
    ensures r == "" && v == IntCast(s)
  {
    r := setting.WriteSetting(Scalar(s), makeTimestamp, true);
    WriteThenRead(Scalar(s), makeTimestamp);
    v := setting.GetSetting();
  }
}
