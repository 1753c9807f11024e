/** Reading rates out of the cached `pairs` dictionary, and the freshness
    test (`_get_rate_pair`, `_get_rate`, `_is_rate_fresh` in
    valutatrade_hub/core/usecases.py). */
module RateLookup {
  import opened Json
  import opened Errors
  import opened Utils

  /** `RATES_TTL_SECONDS` when the settings do not give one. */
  const DefaultTtlSeconds := 300

  /** A usable cache entry: the rate as a float, its `updated_at` text and its
      `source` (the raw stored value, `"unknown"` when absent). */
  datatype Quote = Quote(rate: real, updatedAt: string, source: Json)

  /** The cache key of a currency pair, `FROM_TO`. */
  function PairKey(fromCode: string, toCode: string): string {
    fromCode + "_" + toCode
  }

  /** The cache entry the rate providers write for one pair. */
  function RateRecord(rate: real, updatedAt: string, source: string): Json {
    JObj(map["rate" := JFloat(rate), "updated_at" := JStr(updatedAt), "source" := JStr(source)])
  }

  /** An entry counts only when it is a dict whose `rate` is a number and whose
      `updated_at` is a string. */
  predicate Usable(obj: Json) {
    obj.JObj? && IsNumber(Get(obj, "rate")) && Get(obj, "updated_at").JStr?
  }

  /** `_get_rate_pair(pair)`: the entry under `pair`, when it is usable. */
  function RatePair(pairs: map<string, Json>, pair: string): (r: Option<Quote>)
    ensures r.Some? <==> pair in pairs && Usable(pairs[pair])
    ensures r.Some? ==> r.value.rate == AsReal(pairs[pair].fields["rate"])
    ensures r.Some? ==> r.value.updatedAt == pairs[pair].fields["updated_at"].s
  {
    if pair !in pairs || !Usable(pairs[pair]) then None
    else
      var obj := pairs[pair];
      Some(Quote(AsReal(Get(obj, "rate")), Get(obj, "updated_at").s, GetOr(obj, "source", JStr("unknown"))))
  }

  /** `_get_rate(from, to)`: the direct pair when usable; otherwise the
      reverse pair inverted, unless its rate is zero. */
  function LookupRate(pairs: map<string, Json>, fromCode: string, toCode: string): (r: Option<Quote>)
    ensures RatePair(pairs, PairKey(fromCode, toCode)).Some? ==> r == RatePair(pairs, PairKey(fromCode, toCode))
    ensures RatePair(pairs, PairKey(fromCode, toCode)).None? ==>
      var rev := RatePair(pairs, PairKey(toCode, fromCode));
      if rev.None? || rev.value.rate == 0.0 then r.None?
      else r == Some(rev.value.(rate := 1.0 / rev.value.rate))
  {
    var direct := RatePair(pairs, PairKey(fromCode, toCode));
    if direct.Some? then direct
    else
      var rev := RatePair(pairs, PairKey(toCode, fromCode));
      if rev.None? || rev.value.rate == 0.0 then None
      else Some(Quote(1.0 / rev.value.rate, rev.value.updatedAt, rev.value.source))
  }

  /** `_is_rate_fresh(updated_at)`: the timestamp parses and is at most `ttl`
      seconds older than `now` (seconds since the epoch). */
  function IsRateFresh(updatedAt: string, now: int, ttl: int, fromIso: IsoParser): (r: bool)
    ensures ParseIsoDt(JStr(updatedAt), fromIso).None? ==> !r
    ensures r <==> exists dt :: ParseIsoDt(JStr(updatedAt), fromIso) == Some(dt) && now - EpochSeconds(dt) <= ttl
  {
    var dt := ParseIsoDt(JStr(updatedAt), fromIso);
    if dt.None? then false
    else
      assert ParseIsoDt(JStr(updatedAt), fromIso) == Some(dt.value);
      now - EpochSeconds(dt.value) <= ttl
  }

  // ---------------------------------------------------------------------
  // Properties

  /** A record as the providers write it reads back unchanged. */
  lemma RecordReadsBack(pairs: map<string, Json>, pair: string, rate: real, updatedAt: string, source: string)
    requires pair in pairs && pairs[pair] == RateRecord(rate, updatedAt, source)
    ensures RatePair(pairs, pair) == Some(Quote(rate, updatedAt, JStr(source)))
  {
  }

  /** An entry without a `source` still counts, with source `"unknown"`. */
  lemma SourceDefaultsToUnknown(pairs: map<string, Json>, pair: string, rate: real, updatedAt: string)
    requires pair in pairs
    requires pairs[pair] == JObj(map["rate" := JFloat(rate), "updated_at" := JStr(updatedAt)])
    ensures RatePair(pairs, pair) == Some(Quote(rate, updatedAt, JStr("unknown")))
  {
  }

  /** A usable direct entry is returned unchanged, even when its rate is zero
      and whatever the reverse entry holds. */
  lemma DirectWins(pairs: map<string, Json>, fromCode: string, toCode: string, q: Quote)
    requires RatePair(pairs, PairKey(fromCode, toCode)) == Some(q)
    ensures LookupRate(pairs, fromCode, toCode) == Some(q)
  {
  }

  /** A stored direct rate of zero is not rejected. */
  lemma DirectZeroAccepted(pairs: map<string, Json>, fromCode: string, toCode: string, updatedAt: string, source: string)
    requires PairKey(fromCode, toCode) in pairs
    requires pairs[PairKey(fromCode, toCode)] == RateRecord(0.0, updatedAt, source)
    ensures LookupRate(pairs, fromCode, toCode) == Some(Quote(0.0, updatedAt, JStr(source)))
  {
    RecordReadsBack(pairs, PairKey(fromCode, toCode), 0.0, updatedAt, source);
  }

  /** With only the reverse entry stored, the two directions are inverses of
      each other: their product is 1. */
  lemma ReverseIsInverse(pairs: map<string, Json>, fromCode: string, toCode: string, rate: real,
                                           updatedAt: string, source: string)
    requires fromCode != toCode
    requires PairKey(fromCode, toCode) !in pairs
    requires PairKey(toCode, fromCode) in pairs
    requires pairs[PairKey(toCode, fromCode)] == RateRecord(rate, updatedAt, source)
    requires rate != 0.0
    ensures LookupRate(pairs, fromCode, toCode).Some?
    ensures LookupRate(pairs, toCode, fromCode) == Some(Quote(rate, updatedAt, JStr(source)))
    ensures LookupRate(pairs, fromCode, toCode).value.rate * rate == 1.0
  {
    RecordReadsBack(pairs, PairKey(toCode, fromCode), rate, updatedAt, source);
  }

  /** A reverse entry whose rate is zero yields no rate. */
  lemma ZeroReverseIsNoRate(pairs: map<string, Json>, fromCode: string, toCode: string, updatedAt: string, source: string)
    requires PairKey(fromCode, toCode) !in pairs
    requires PairKey(toCode, fromCode) in pairs
    requires pairs[PairKey(toCode, fromCode)] == RateRecord(0.0, updatedAt, source)
    ensures LookupRate(pairs, fromCode, toCode).None?
  {
    RecordReadsBack(pairs, PairKey(toCode, fromCode), 0.0, updatedAt, source);
  }

  /** A rate that is fresh now was fresh at every earlier moment, and stays
      fresh under a longer time-to-live. */
  lemma FreshnessMonotone(updatedAt: string, now: int, earlier: int, ttl: int, longer: int, fromIso: IsoParser)
    requires IsRateFresh(updatedAt, now, ttl, fromIso)
    requires earlier <= now && ttl <= longer
    ensures IsRateFresh(updatedAt, earlier, longer, fromIso)
  {
  }

  /** A naive timestamp is read as UTC: it is fresh exactly when the same
      reading with an explicit zero offset is. */
  lemma NaiveTimestampIsUtc(a: string, b: string, wall: int, now: int, ttl: int, fromIso: IsoParser)
    requires ParseIsoDt(JStr(a), fromIso) == Some(DateTime(wall, None))
    requires ParseIsoDt(JStr(b), fromIso) == Some(DateTime(wall, Some(0)))
    ensures IsRateFresh(a, now, ttl, fromIso) == IsRateFresh(b, now, ttl, fromIso)
  {
  }
}
