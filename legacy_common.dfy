/**
  The connection pool of the first Telraam scripts: one connection per
  non-blank line of the token file, used round robin from the first one; a
  reply whose `message` is "Too Many Requests" is retried.
*/
module LegacyCommon {
  import opened Wrappers
  import opened Strings
  import opened Json
  import Common

  /** The API keys read from the token file: every non-blank line, stripped, in order. */
  function ApiKeys(lines: seq<string>): (keys: seq<string>)
    ensures |keys| <= |lines|
    ensures forall k :: k in keys ==> k != [] && !IsSpace(k[0]) && !IsSpace(k[|k| - 1])
    ensures forall k :: k in keys ==> exists l :: l in lines && Strip(l) == k
    ensures forall l :: l in lines && Strip(l) != [] ==> Strip(l) in keys
  {
    if lines == [] then []
    else
      var rest := ApiKeys(lines[1..]);
      var t := Strip(lines[0]);
      var keys := if t != [] then [t] + rest else rest;
      assert forall k :: k in keys ==> exists l :: l in lines && Strip(l) == k by {
        forall k | k in keys ensures exists l :: l in lines && Strip(l) == k {
          if k in rest {
            var l :| l in lines[1..] && Strip(l) == k;
            assert l in lines;
          } else {
            assert lines[0] in lines;
          }
        }
      }
      assert forall l :: l in lines && Strip(l) != [] ==> Strip(l) in keys by {
        forall l | l in lines && Strip(l) != [] ensures Strip(l) in keys {
          if l != lines[0] {
            assert l in lines[1..];
          }
        }
      }
      keys
  }

  const Throttled: string := "Too Many Requests"

  /** Whether a reply is the API's "too many requests" answer. */
  predicate IsThrottled(response: Json) {
    Field(response, "message") == Some(JStr(Throttled))
  }

  class ConnectionProvider {
    var keys: seq<string>
    var index: nat
    var numQueries: nat

    predicate Valid()
      reads this
    {
      index < |keys| || index == 0
    }

    /** `ConnectionProvider(token_file, url)` given the lines of the token file. */
    constructor (lines: seq<string>)
      ensures Valid()
      ensures keys == ApiKeys(lines) && index == 0 && numQueries == 0
    {
      keys := ApiKeys(lines);
      index := 0;
      numQueries := 0;
    }

    /**
      `request`: up to `retries + 1` attempts, each on the next connection.
      `replies[j]` is the decoded answer to attempt `j`; any answer that is not
      the throttling message is returned at once, even one carrying
      `errorMessage` or lacking the `required` key; `{}` when every attempt was
      throttled.  `used[j]` is the connection attempt `j` went to.  With no connection at all the source divides by zero, hence
      the requirement of at least one key.
    */
    method Request(retries: nat, replies: seq<Json>) returns (response: Json, attempts: nat, used: seq<nat>)
      requires Valid() && |keys| > 0
      requires |replies| > retries
      modifies this
      ensures Valid() && keys == old(keys)
      ensures 1 <= attempts <= retries + 1
      ensures numQueries == old(numQueries) + attempts
      ensures index == (old(index) + attempts) % |keys|
      ensures |used| == attempts && forall j :: 0 <= j < attempts ==> used[j] == (old(index) + j) % |keys|
      ensures forall j :: 0 <= j < attempts - 1 ==> IsThrottled(replies[j])
      ensures !IsThrottled(replies[attempts - 1]) ==> response == replies[attempts - 1]
      ensures IsThrottled(replies[attempts - 1]) ==> attempts == retries + 1 && response == JObj([])
    {
      ghost var start := index;
      ghost var laps := 0;
      var n := |keys|;
      attempts := 0;
      used := [];
      while attempts < retries + 1
        invariant 0 <= attempts <= retries + 1
        invariant keys == old(keys) && n == |keys|
        invariant index < n && start + attempts == laps * n + index
        invariant numQueries == old(numQueries) + attempts
        invariant |used| == attempts && forall j :: 0 <= j < attempts ==> used[j] == (start + j) % n
        invariant forall j :: 0 <= j < attempts ==> IsThrottled(replies[j])
      {
        numQueries := numQueries + 1;
        assert index == (start + attempts) % n by {
          Common.DivMod(start + attempts, n, laps, index);
        }
        used := used + [index];
        Common.NextIndex(index, n);
        index := (index + 1) % n;
        attempts := attempts + 1;
        if index == 0 {
          laps := laps + 1;
          assert laps * n == (laps - 1) * n + n;
        }
        assert index == (start + attempts) % n by {
          Common.DivMod(start + attempts, n, laps, index);
        }
        var r := replies[attempts - 1];
        if !IsThrottled(r) {
          return r, attempts, used;
        }
      }
      assert index == (start + attempts) % n by {
        Common.DivMod(start + attempts, n, laps, index);
      }
      response := JObj([]);
    }
  }
}
