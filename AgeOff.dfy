/**
 * MaximumAgeOffFilter: the age-off rule that keeps a key/value pair exactly when the key's timestamp
 * is newer than the cutoff of the age-off period, and whose initialisation only checks its options.
 *
 * The cutoff is computed by the age-off period from the scan start and the TTL; here it is an input.
 */
module AgeOff {
  import opened Wrappers
  import opened JavaTypes

  type Bytes = seq<bv8>

  /** An Accumulo key: row, column family, column qualifier, column visibility, timestamp and the delete
      marker. */
  datatype Key = Key(row: Bytes, columnFamily: Bytes, columnQualifier: Bytes, columnVisibility: Bytes,
                     timestamp: Long, deleted: bool)

  datatype Value = Value(bytes: Bytes)

  /** The age-off period: entries whose timestamp is at or before the cutoff are aged off. */
  datatype AgeOffPeriod = AgeOffPeriod(cutOffMilliseconds: Long)

  /** The filter options that init reads: the TTL and the text of the scan-start option (None when the
      option is not set). */
  datatype FilterOptions = FilterOptions(ttl: Long, scanStartOption: Option<string>)

  datatype InitError = IllegalArgument(message: string) | NullPointer | NumberFormat(input: string)

  const TTL_MUST_BE_SET: string := "ttl must be set for a FilterRule implementation"

  /** The filter's one field. */
  datatype MaximumAgeOffFilter = MaximumAgeOffFilter(ruleApplied: bool)

  /** The default constructor: the rule is applied. */
  function NewFilter(): (f: MaximumAgeOffFilter)
    ensures f.ruleApplied
  {
    MaximumAgeOffFilter(true)
  }

  /** isFilterRuleApplied. */
  function IsFilterRuleApplied(f: MaximumAgeOffFilter): (r: bool)
    ensures r <==> f.ruleApplied
  {
    f.ruleApplied
  }

  /** accept: pass the pair on exactly when its timestamp is strictly after the cutoff. */
  function Accept(period: AgeOffPeriod, k: Key, v: Value): (r: bool)
    ensures r <==> k.timestamp > period.cutOffMilliseconds
  {
    if k.timestamp > period.cutOffMilliseconds then true else false
  }

  /** init(options, scanStart): null options or a negative TTL are rejected; the filter itself is left as
      it was. */
  function InitWithScanStart(f: MaximumAgeOffFilter, options: Option<FilterOptions>, scanStart: Long)
    : (r: Result<MaximumAgeOffFilter, InitError>)
    ensures r.Failure? <==> options.None? || options.value.ttl < 0
    ensures r.Failure? ==> r.error == IllegalArgument(TTL_MUST_BE_SET)
    ensures r.Success? ==> r.value == f
  {
    if options.None? then Failure(IllegalArgument(TTL_MUST_BE_SET))
    else if options.value.ttl < 0 then Failure(IllegalArgument(TTL_MUST_BE_SET))
    else Success(f)
  }

  /** The scan start init(options) passes on: the clock reading `now` when the option is unset, else the
      option parsed by Long.parseLong, modelled by the oracle `parseLong` (None when it throws). */
  function ScanStart(options: FilterOptions, now: Long, parseLong: string -> Option<Long>): (r: Result<Long, InitError>)
    ensures r.Success? ==>
      (options.scanStartOption.None? && r.value == now) ||
      (options.scanStartOption.Some? && parseLong(options.scanStartOption.value) == Some(r.value))
    ensures r.Failure? <==> options.scanStartOption.Some? && parseLong(options.scanStartOption.value).None?
    ensures r.Failure? ==> r.error == NumberFormat(options.scanStartOption.value)
  {
    match options.scanStartOption
    case None => Success(now)
    case Some(text) =>
      match parseLong(text)
      case None => Failure(NumberFormat(text))
      case Some(n) => Success(n)
  }

  /** init(options): dereferences the options to read the scan start, then validates as init(options,
      scanStart). */
  function Init(f: MaximumAgeOffFilter, options: Option<FilterOptions>, now: Long, parseLong: string -> Option<Long>)
    : (r: Result<MaximumAgeOffFilter, InitError>)
    ensures options.None? ==> r == Failure(NullPointer)
    ensures options.Some? && ScanStart(options.value, now, parseLong).Failure? ==>
      r == Failure(ScanStart(options.value, now, parseLong).error)
    ensures options.Some? && ScanStart(options.value, now, parseLong).Success? ==>
      r == InitWithScanStart(f, options, ScanStart(options.value, now, parseLong).value)
  {
    if options.None? then Failure(NullPointer)
    else
      var scanStart := ScanStart(options.value, now, parseLong);
      if scanStart.Failure? then Failure(scanStart.error)
      else InitWithScanStart(f, options, scanStart.value)
  }

  // ---------------------------------------------------------------------------------------------
  // Properties

  /** A timestamp equal to the cutoff is aged off. */
  lemma CutoffIsAgedOff(period: AgeOffPeriod, k: Key, v: Value)
    requires k.timestamp == period.cutOffMilliseconds
    ensures !Accept(period, k, v)
  {
  }

  /** Acceptance is monotone in the timestamp. */
  lemma AcceptMonotone(period: AgeOffPeriod, k: Key, k': Key, v: Value, v': Value)
    requires Accept(period, k, v) && k'.timestamp >= k.timestamp
    ensures Accept(period, k', v')
  {
  }

  /** Acceptance depends on the key's timestamp and the cutoff only: not on the value, nor on the rest of
      the key. */
  lemma AcceptOnlyTimestamp(period: AgeOffPeriod, k: Key, k': Key, v: Value, v': Value)
    requires k'.timestamp == k.timestamp
    ensures Accept(period, k, v) == Accept(period, k', v')
  {
  }

  /** A later cutoff ages off more: what it accepts an earlier cutoff accepts too. */
  lemma LaterCutoffAcceptsLess(p: AgeOffPeriod, p': AgeOffPeriod, k: Key, v: Value)
    requires p.cutOffMilliseconds <= p'.cutOffMilliseconds && Accept(p', k, v)
    ensures Accept(p, k, v)
  {
  }

  /** The rule stays applied whatever init does. */
  lemma RuleStaysApplied(options: Option<FilterOptions>, now: Long, parseLong: string -> Option<Long>)
    ensures IsFilterRuleApplied(NewFilter())
    ensures Init(NewFilter(), options, now, parseLong).Success? ==>
      IsFilterRuleApplied(Init(NewFilter(), options, now, parseLong).value)
  {
  }

  /** With the scan-start option unset, init succeeds exactly when the TTL is not negative, whatever the
      clock says. */
  lemma InitWithoutScanStart(f: MaximumAgeOffFilter, ttl: Long, now: Long, parseLong: string -> Option<Long>)
    ensures Init(f, Some(FilterOptions(ttl, None)), now, parseLong).Success? <==> ttl >= 0
  {
  }
}
