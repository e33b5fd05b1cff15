/**
  Shared helpers of the data-ingestion backend: month arithmetic, the server
  URL option, UTC parsing, the "file is fresh" rule and the rotating,
  throttle-aware connection pool of the Telraam API client.
*/
module Common {
  import opened Wrappers
  import opened Strings
  import opened Json

  // ---------------------------------------------------------------------
  // Month arithmetic
  // ---------------------------------------------------------------------

  predicate ValidMonth(month: int) {
    1 <= month <= 12
  }

  /** The absolute number of a month: months since January of year 0. */
  function MonthIndex(year: int, month: int): int {
    12 * year + month - 1
  }

  /** The (year, month) pair `offset` months after (year, month), with the month normalised. */
  function MonthShift(offset: int, year: int, month: int): (r: (int, int))
    ensures ValidMonth(r.1)
    ensures MonthIndex(r.0, r.1) == MonthIndex(year, month) + offset
  {
    var i := MonthIndex(year, month) + offset;
    (i / 12, i % 12 + 1)
  }

  /** A month index names exactly one normalised (year, month) pair. */
  lemma MonthIndexInjective(y1: int, m1: int, y2: int, m2: int)
    requires ValidMonth(m1) && ValidMonth(m2)
    requires MonthIndex(y1, m1) == MonthIndex(y2, m2)
    ensures y1 == y2 && m1 == m2
  {
  }

  /** Adding nothing to a valid month leaves it alone. */
  lemma MonthShiftZero(year: int, month: int)
    requires ValidMonth(month)
    ensures MonthShift(0, year, month) == (year, month)
  {
    var r := MonthShift(0, year, month);
    MonthIndexInjective(r.0, r.1, year, month);
  }

  /** Shifting by `a` and then by `b` is shifting by `a + b`. */
  lemma MonthShiftCompose(a: int, b: int, year: int, month: int)
    ensures MonthShift(b, MonthShift(a, year, month).0, MonthShift(a, year, month).1) == MonthShift(a + b, year, month)
  {
    var p := MonthShift(a, year, month);
    var q := MonthShift(b, p.0, p.1);
    var r := MonthShift(a + b, year, month);
    MonthIndexInjective(q.0, q.1, r.0, r.1);
  }

  /** Shifting forward by `k` and back by `k` returns to a valid month. */
  lemma MonthShiftInverse(k: int, year: int, month: int)
    requires ValidMonth(month)
    ensures MonthShift(-k, MonthShift(k, year, month).0, MonthShift(k, year, month).1) == (year, month)
  {
    MonthShiftCompose(k, -k, year, month);
    MonthShiftZero(year, month);
  }

  /** Python's tuple order on (year, month) pairs. */
  predicate TupleLe(a: (int, int), b: (int, int)) {
    a.0 < b.0 || (a.0 == b.0 && a.1 <= b.1)
  }

  /** On normalised months the tuple order is the order of month indices. */
  lemma TupleLeIsIndexOrder(a: (int, int), b: (int, int))
    requires ValidMonth(a.1) && ValidMonth(b.1)
    ensures TupleLe(a, b) <==> MonthIndex(a.0, a.1) <= MonthIndex(b.0, b.1)
  {
  }

  /** The month after a valid month. */
  function NextMonth(month: (int, int)): (r: (int, int))
    requires ValidMonth(month.1)
    ensures ValidMonth(r.1)
    ensures MonthIndex(r.0, r.1) == MonthIndex(month.0, month.1) + 1
  {
    if month.1 == 12 then (month.0 + 1, 1) else (month.0, month.1 + 1)
  }

  lemma NextIsShift(month: (int, int))
    requires ValidMonth(month.1)
    ensures MonthShift(1, month.0, month.1) == NextMonth(month)
  {
    var r := MonthShift(1, month.0, month.1);
    var n := NextMonth(month);
    MonthIndexInjective(r.0, r.1, n.0, n.1);
  }

  /** The number of months from `first` through `last`, none when `last` comes first. */
  function MonthCount(first: (int, int), last: (int, int)): nat {
    var n := MonthIndex(last.0, last.1) - MonthIndex(first.0, first.1) + 1;
    if n < 0 then 0 else n
  }

  /** What `name` gives for `n` consecutive months from `month` on. */
  function Walk<T>(name: ((int, int)) -> T, month: (int, int), n: nat): seq<T>
    requires ValidMonth(month.1)
    decreases n
  {
    if n == 0 then [] else [name(month)] + Walk(name, NextMonth(month), n - 1)
  }

  /** A walk after what is done so far: its first month, then the walk from the next month. */
  lemma WalkStep<T>(done: seq<T>, name: ((int, int)) -> T, month: (int, int), n: nat)
    requires ValidMonth(month.1) && n > 0
    ensures done + Walk(name, month, n) == done + [name(month)] + Walk(name, NextMonth(month), n - 1)
  {
    var rest := Walk(name, NextMonth(month), n - 1);
    assert Walk(name, month, n) == [name(month)] + rest;
    assert done + ([name(month)] + rest) == done + [name(month)] + rest;
  }

  /** A walk through `last` after what is done so far: its first month, then the walk from the next month. */
  lemma WalkNext<T>(done: seq<T>, name: ((int, int)) -> T, month: (int, int), last: (int, int))
    requires ValidMonth(month.1) && ValidMonth(last.1) && TupleLe(month, last)
    ensures done + Walk(name, month, MonthCount(month, last)) ==
      done + [name(month)] + Walk(name, NextMonth(month), MonthCount(NextMonth(month), last))
  {
    TupleLeIsIndexOrder(month, last);
    WalkStep(done, name, month, MonthCount(month, last));
  }

  /** The `k`-th element of a walk is named after the `k`-th month from its start. */
  lemma {:induction false} WalkAt<T>(name: ((int, int)) -> T, month: (int, int), n: nat)
    requires ValidMonth(month.1)
    ensures |Walk(name, month, n)| == n
    ensures forall k :: 0 <= k < n ==> Walk(name, month, n)[k] == name(MonthShift(k, month.0, month.1))
    decreases n
  {
    if n > 0 {
      var next := NextMonth(month);
      WalkAt(name, next, n - 1);
      var w := Walk(name, month, n);
      forall k | 0 <= k < n ensures w[k] == name(MonthShift(k, month.0, month.1)) {
        if k == 0 {
          MonthShiftZero(month.0, month.1);
        } else {
          assert w[k] == Walk(name, next, n - 1)[k - 1];
          NextIsShift(month);
          MonthShiftCompose(1, k - 1, month.0, month.1);
        }
      }
    }
  }

  /** A walk from `first` through `last` ends at `last`. */
  lemma WalkEnds(first: (int, int), last: (int, int))
    requires ValidMonth(first.1) && ValidMonth(last.1)
    ensures MonthCount(first, last) > 0 ==> MonthShift(MonthCount(first, last) - 1, first.0, first.1) == last
  {
    var n := MonthCount(first, last);
    if n > 0 {
      var r := MonthShift(n - 1, first.0, first.1);
      MonthIndexInjective(r.0, r.1, last.0, last.1);
    }
  }

  /** `add_month`: add `offset` to the month, then carry whole years out of it. */
  method AddMonth(offset: int, year: int, month: int) returns (y: int, m: int)
    ensures (y, m) == MonthShift(offset, year, month)
  {
    y, m := year, month + offset;
    while m > 12
      invariant MonthIndex(y, m) == MonthIndex(year, month) + offset
      decreases m
    {
      y := y + 1;
      m := m - 12;
    }
    while m < 1
      invariant m <= 12
      invariant MonthIndex(y, m) == MonthIndex(year, month) + offset
      decreases 1 - m
    {
      y := y - 1;
      m := m + 12;
    }
    var r := MonthShift(offset, year, month);
    MonthIndexInjective(y, m, r.0, r.1);
  }

  // ---------------------------------------------------------------------
  // Command line options
  // ---------------------------------------------------------------------

  /** `url` after `parse_options`: a set URL without a scheme gets `https://`. */
  function WithScheme(url: Option<string>): (r: Option<string>)
    ensures r.Some? <==> url.Some?
    ensures url.Some? && url.value != [] && !Contains(url.value, "://") ==> r == Some("https://" + url.value)
    ensures !(url.Some? && url.value != [] && !Contains(url.value, "://")) ==> r == url
  {
    match url
    case Some(u) => if u != [] && !Contains(u, "://") then Some("https://" + u) else url
    case None => None
  }

  /** After prefixing, the URL carries a scheme, so a second pass changes nothing. */
  lemma WithSchemeIdempotent(url: Option<string>)
    ensures WithScheme(WithScheme(url)) == WithScheme(url)
  {
    var r := WithScheme(url);
    if r.Some? && r != url {
      assert OccursAt(r.value, "://", 5);
    }
  }

  /** The parsed command line; `parse_options` rewrites it in place. */
  class Options {
    var url: Option<string>
    var secrets: Option<Json>

    constructor (url: Option<string>)
      ensures this.url == url && secrets.None?
    {
      this.url := url;
      secrets := None;
    }

    /**
      `parse_options`: the secrets file's content, when the file exists, and the
      URL normalised by `WithScheme`.
    */
    method ParseOptions(secretsFile: Option<Json>)
      modifies this
      ensures url == WithScheme(old(url))
      ensures secrets == if secretsFile.Some? then secretsFile else old(secrets)
    {
      if secretsFile.Some? {
        secrets := secretsFile;
      }
      if url.Some? && url.value != [] && !Contains(url.value, "://") {
        url := Some("https://" + url.value);
      }
    }
  }

  // ---------------------------------------------------------------------
  // Dates
  // ---------------------------------------------------------------------

  /** What `parse_utc` is given and gives back: a datetime or ISO-8601 text. */
  datatype DateArg = At(seconds: int) | Iso(text: string)

  /**
    `parse_utc`: datetimes pass through (converted to UTC, the same instant);
    empty text and `"NaT"` give `None`; otherwise a trailing `Z` is read as `+00:00`
    before the text is parsed (the ISO parser itself is not part of this model).
  */
  function ParseUtc(date: DateArg): (r: Option<DateArg>)
    ensures date.At? ==> r == Some(date)
    ensures date.Iso? ==> (r.None? <==> date.text == [] || date.text == "NaT")
    ensures date.Iso? && r.Some? ==> r.value.Iso? && 'Z' !in r.value.text
    ensures date.Iso? && r.Some? && 'Z' !in date.text ==> r == Some(date)
  {
    match date
    case At(_) => Some(date)
    case Iso(text) =>
      if text != [] && text != "NaT" then Some(Iso(ReplaceChar(text, 'Z', "+00:00"))) else None
  }

  lemma ParseUtcZulu(date: string)
    requires 'Z' !in date
    ensures ParseUtc(Iso(date + "Z")) == Some(Iso(date + "+00:00"))
  {
    ReplaceCharAppend(date, "Z", 'Z', "+00:00");
    assert "Z"[1..] == [];
    assert ReplaceChar("Z", 'Z', "+00:00") == "+00:00";
    assert ReplaceChar(date, 'Z', "+00:00") == date;
    var t := date + "Z";
    assert t[|date|] == 'Z';
    assert t != "NaT" by {
      if |t| == 3 {
        assert t[2] == 'Z' && "NaT"[2] == 'T';
      }
    }
  }

  const Epoch: string := "1970-01-01T00:00:00+00:00"

  /** `parse_utc_dict`: the entry under `key`, or the start of 1970 when it is missing. */
  function ParseUtcDict(d: PyDict.Dict<string, DateArg>, key: string): (r: Option<DateArg>)
    ensures !PyDict.HasKey(d, key) ==> r.Some?
  {
    assert |Epoch| == 25;
    ParseUtc(PyDict.Get(d, key).GetOr(Iso(Epoch)))
  }

  // ---------------------------------------------------------------------
  // Dates stored in JSON properties
  // ---------------------------------------------------------------------

  /**
    A property as `parse_utc` reads text: strings as they are.  Any other
    value makes `date.replace` raise an `AttributeError` in the script; here
    it reads as empty text.
  */
  function TextOf(j: Json): string {
    if j.JStr? then j.s else ""
  }

  /** The properties of a station as dates for `parse_utc_dict`. */
  function Stamps(t: Props): (r: PyDict.Dict<string, DateArg>)
    ensures |r| == |t| && forall i :: 0 <= i < |t| ==> r[i] == (t[i].0, Iso(TextOf(t[i].1)))
  {
    seq(|t|, i requires 0 <= i < |t| => (t[i].0, Iso(TextOf(t[i].1))))
  }

  /** Looking a key up in the stamps is looking it up in the properties. */
  lemma StampsGet(t: Props, key: string)
    ensures PyDict.Get(Stamps(t), key) ==
      (if PyDict.HasKey(t, key) then Some(Iso(TextOf(PyDict.Get(t, key).value))) else None)
  {
    assert PyDict.Keys(Stamps(t)) == PyDict.Keys(t);
    PyDict.SameKeysSameIndex(Stamps(t), t, key);
  }

  /**
    `parse_utc_dict(t, key) or epoch` as text: the stamp of `t` under `key`,
    the start of 1970 when there is none, or `fallback` when it is empty.
  */
  function StampOr(t: Props, key: string, fallback: string): string {
    match ParseUtcDict(Stamps(t), key)
    case Some(Iso(text)) => text
    case _ => fallback
  }

  /** A station never backed up reads as backed up at the start of 1970, not as the fallback. */
  lemma StampMissing(t: Props, key: string, fallback: string)
    requires !PyDict.HasKey(t, key)
    ensures StampOr(t, key, fallback) == Epoch
  {
    StampsGet(t, key);
    assert 'Z' !in Epoch;
  }

  /** A stored stamp in `+00:00` form is read back unchanged; an empty one gives the fallback. */
  lemma StampStored(t: Props, key: string, fallback: string, text: string)
    requires PyDict.Get(t, key) == Some(JStr(text))
    ensures text != "" && text != "NaT" && 'Z' !in text ==> StampOr(t, key, fallback) == text
    ensures text == "" ==> StampOr(t, key, fallback) == fallback
  {
    StampsGet(t, key);
  }

  // ---------------------------------------------------------------------
  // Freshness of generated files
  // ---------------------------------------------------------------------

  const FreshSeconds: int := 30 * 60

  /** What is known of a previously written GeoJSON file. */
  datatype StoredJson<F> = StoredJson(createdAt: Option<int>, features: Option<seq<F>>)

  /**
    `load_json_if_stale`: `Some([])` to start over when there is no file or
    `clear` is set, `None` when the file is under 30 minutes old (a missing
    `created_at` counts as 1970), otherwise the stored features.
  */
  function LoadJsonIfStale<F>(file: Option<StoredJson<F>>, clear: bool, now: int): (r: Option<seq<F>>)
    ensures file.None? || clear ==> r == Some([])
    ensures file.Some? && !clear ==>
      (r.None? <==> now - file.value.createdAt.GetOr(0) < FreshSeconds)
    ensures file.Some? && !clear && r.Some? ==> r.value == file.value.features.GetOr([])
  {
    if file.None? || clear then Some([])
    else if now - file.value.createdAt.GetOr(0) < FreshSeconds then None
    else Some(file.value.features.GetOr([]))
  }

  /** Only an existing file that is not being cleared can make a run skip its work. */
  lemma SkipOnlyWhenFresh<F>(file: Option<StoredJson<F>>, clear: bool, now: int)
    requires LoadJsonIfStale(file, clear, now).None?
    ensures file.Some? && !clear
    ensures file.value.createdAt.GetOr(0) > now - FreshSeconds
  {
  }

  // ---------------------------------------------------------------------
  // The connection pool
  // ---------------------------------------------------------------------

  /** One HTTP answer: its status code and its decoded JSON body. */
  datatype Reply = Reply(status: int, body: Json)

  const TooManyRequests: int := 429

  /**
    `ConnectionProvider`: one session per API token, used round robin from a
    random start; `numQueries` counts requests sent.
  */
  class ConnectionProvider {
    var tokens: seq<string>
    var index: nat
    var numQueries: nat

    predicate Valid()
      reads this
    {
      |tokens| > 0 && index < |tokens|
    }

    /** `start` is the value `random.randint(0, len(tokens) - 1)` drew. */
    constructor (tokens: seq<string>, start: nat)
      requires start < |tokens|
      ensures Valid()
      ensures this.tokens == tokens && index == start && numQueries == 0
    {
      this.tokens := tokens;
      index := start;
      numQueries := 0;
    }

    /**
      `request`: up to `retries + 1` attempts, each on the next connection.
      `replies[j]` is the server's answer to attempt `j`.  A throttled answer
      (status 429) is retried; any other answer is returned as it is, error
      bodies included; `{}` when every attempt was throttled.
    */
    method Request(retries: nat, replies: seq<Reply>) returns (response: Json, attempts: nat, used: seq<nat>)
      requires Valid()
      requires |replies| > retries
      modifies this
      ensures Valid() && tokens == old(tokens)
      ensures 1 <= attempts <= retries + 1
      ensures numQueries == old(numQueries) + attempts
      ensures index == (old(index) + attempts) % |tokens|
      ensures |used| == attempts && forall j :: 0 <= j < attempts ==> used[j] == (old(index) + j) % |tokens|
      ensures forall j :: 0 <= j < attempts - 1 ==> replies[j].status == TooManyRequests
      ensures replies[attempts - 1].status != TooManyRequests ==> response == replies[attempts - 1].body
      ensures replies[attempts - 1].status == TooManyRequests ==> attempts == retries + 1 && response == JObj([])
    {
      ghost var start := index;
      ghost var laps := 0;
      var n := |tokens|;
      attempts := 0;
      used := [];
      while attempts < retries + 1
        invariant 0 <= attempts <= retries + 1
        invariant tokens == old(tokens) && n == |tokens|
        invariant index < n && start + attempts == laps * n + index
        invariant numQueries == old(numQueries) + attempts
        invariant |used| == attempts && forall j :: 0 <= j < attempts ==> used[j] == (start + j) % n
        invariant forall j :: 0 <= j < attempts ==> replies[j].status == TooManyRequests
      {
        numQueries := numQueries + 1;
        assert index == (start + attempts) % n by {
          DivMod(start + attempts, n, laps, index);
        }
        used := used + [index];
        NextIndex(index, n);
        index := (index + 1) % n;
        attempts := attempts + 1;
        if index == 0 {
          laps := laps + 1;
          assert laps * n == (laps - 1) * n + n;
        }
        assert index == (start + attempts) % n by {
          DivMod(start + attempts, n, laps, index);
        }
        var r := replies[attempts - 1];
        if r.status != TooManyRequests {
          return r.body, attempts, used;
        }
      }
      assert index == (start + attempts) % n by {
        DivMod(start + attempts, n, laps, index);
      }
      response := JObj([]);
    }
  }

  /** Stepping from connection `i` of `n` wraps to 0 after the last one. */
  lemma NextIndex(i: nat, n: nat)
    requires i < n
    ensures (i + 1) % n == if i + 1 < n then i + 1 else 0
  {
    if i + 1 < n {
      DivMod(i + 1, n, 0, i + 1);
    } else {
      DivMod(i + 1, n, 1, 0);
    }
  }

  /** Euclidean division has one quotient and one remainder. */
  lemma DivMod(x: int, n: int, q: int, r: int)
    requires n > 0 && 0 <= r < n && x == q * n + r
    ensures x / n == q && x % n == r
  {
    var q', r' := x / n, x % n;
    assert x == q' * n + r';
    assert (q - q') * n == r' - r;
    if q' < q {
      MulAtLeast(q - q', n);
    } else if q < q' {
      MulAtLeast(q' - q, n);
    }
  }

  lemma MulAtLeast(d: int, n: int)
    requires d >= 1 && n > 0
    ensures d * n >= n
  {
  }
}
