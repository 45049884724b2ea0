/**
 * The time budget of a `go` command: the argument tokens are scanned into a
 * dictionary of integer parameters, then `movetime` wins, else the side to
 * move's clock gives a fortieth of the remaining time plus the increment,
 * else a budget of 10,000,000 ms that in practice means "until stopped".
 */
module GoTime {
  import opened Wrappers

  /** The budget when neither `movetime` nor the side's clock is given. */
  const DEFAULT_BUDGET_MS: int := 10_000_000

  /** The clock branch plans for this many further moves. */
  const MOVES_TO_GO: int := 40

  predicate IsDigit(c: char)
  {
    '0' <= c <= '9'
  }

  function DigitValue(c: char): (d: nat)
    requires IsDigit(c)
    ensures d < 10
  {
    (c as int) - ('0' as int)
  }

  /**
   * What the integer parser accepts after an optional sign: ASCII decimal
   * digits, starting and ending with a digit, where an underscore may
   * separate two digits.
   */
  predicate DigitRun(t: string)
  {
    && |t| > 0
    && IsDigit(t[0])
    && IsDigit(t[|t| - 1])
    && (forall i :: 0 <= i < |t| ==> IsDigit(t[i]) || t[i] == '_')
    && (forall i :: 0 < i < |t| && t[i] == '_' ==> t[i - 1] != '_')
  }

  /** The number the digits of t spell, underscores skipped. */
  function RunValue(t: string): nat
  {
    if t == [] then 0
    else
      var c := t[|t| - 1];
      if IsDigit(c) then 10 * RunValue(t[..|t| - 1]) + DigitValue(c)
      else RunValue(t[..|t| - 1])
  }

  /** The interpreter's base-10 string-to-integer conversion; None where it raises. */
  function ParseInt(s: string): Option<int>
  {
    if |s| > 0 && (s[0] == '+' || s[0] == '-') then
      if DigitRun(s[1..]) then
        var v: int := RunValue(s[1..]);
        Some(if s[0] == '-' then -v else v)
      else None
    else if DigitRun(s) then Some(RunValue(s))
    else None
  }

  /** The plain decimal rendering of a natural number. */
  function Show(n: nat): (t: string)
    ensures |t| > 0
  {
    if n < 10 then ['0' + n as char]
    else Show(n / 10) + ['0' + (n % 10) as char]
  }

  lemma {:induction false} ShowIsRun(n: nat)
    ensures DigitRun(Show(n)) && RunValue(Show(n)) == n
    ensures forall i :: 0 <= i < |Show(n)| ==> IsDigit(Show(n)[i])
  {
    var t := Show(n);
    if n >= 10 {
      ShowIsRun(n / 10);
      assert t[..|t| - 1] == Show(n / 10);
    }
  }

  /** Rendering a number in decimal and parsing it back gives the number, with or without a sign. */
  lemma ParseShow(n: nat)
    ensures ParseInt(Show(n)) == Some(n)
    ensures ParseInt("+" + Show(n)) == Some(n)
    ensures ParseInt("-" + Show(n)) == Some(-(n as int))
  {
    ShowIsRun(n);
    assert ("+" + Show(n))[1..] == Show(n);
    assert ("-" + Show(n))[1..] == Show(n);
  }

  /** An underscore between digits does not change the value. */
  lemma {:induction false} UnderscoreIgnored(a: string, b: string)
    ensures RunValue(a + "_" + b) == RunValue(a + b)
    decreases |b|
  {
    if b == [] {
      assert (a + "_" + b)[..|a + "_" + b| - 1] == a;
      assert a + b == a;
    } else {
      var b' := b[..|b| - 1];
      assert (a + "_" + b)[..|a + "_" + b| - 1] == a + "_" + b';
      assert (a + b)[..|a + b| - 1] == a + b';
      UnderscoreIgnored(a, b');
    }
  }

  /** The parser refuses an empty token, a bare sign, and doubled, leading or trailing underscores. */
  lemma ParseRejects(a: string, b: string)
    ensures ParseInt("") == None && ParseInt("-") == None && ParseInt("+") == None
    ensures ParseInt(a + "__" + b) == None
    ensures ParseInt("_" + a) == None
    ensures ParseInt(a + "_") == None
  {
    var s := a + "__" + b;
    assert s[|a| + 1] == '_' && s[|a|] == '_';
    if |s| > 0 && (s[0] == '+' || s[0] == '-') {
      assert s[1..][|a|] == '_' && s[1..][|a| - 1] == '_';
    }
    var u := "_" + a;
    if |u| > 0 && (u[0] == '+' || u[0] == '-') {
    }
    var w := a + "_";
    if |w| > 0 && (w[0] == '+' || w[0] == '-') {
      assert w[1..][|w[1..]| - 1] == '_';
    }
  }

  /** At position t the scan would store tokens[t] with the integer the next token spells. */
  predicate PairAt(tokens: seq<string>, t: int, k: string, v: int)
  {
    0 <= t && t + 1 < |tokens| && tokens[t] == k && ParseInt(tokens[t + 1]) == Some(v)
  }

  /**
   * The (key, value) pairs the scan stores from position i on, in order: a
   * token followed by an integer is a pair and both are consumed; otherwise
   * only the token is passed over; the last token is never a key.
   */
  function Pairs(tokens: seq<string>, i: nat): seq<(string, int)>
    decreases |tokens| - i
  {
    if i + 1 >= |tokens| then []
    else match ParseInt(tokens[i + 1])
      case Some(v) => [(tokens[i], v)] + Pairs(tokens, i + 2)
      case None => Pairs(tokens, i + 1)
  }

  /** The dictionary after storing the pairs left to right. */
  function Store(m: map<string, int>, ps: seq<(string, int)>): map<string, int>
    decreases |ps|
  {
    if ps == [] then m else Store(m[ps[0].0 := ps[0].1], ps[1..])
  }

  /** The parameters a `go` command's tokens give. */
  function Params(tokens: seq<string>): map<string, int>
  {
    Store(map[], Pairs(tokens, 0))
  }

  /** The budget the parameters give to the side to move. */
  function Budget(params: map<string, int>, whiteToMove: bool): int
  {
    if "movetime" in params then params["movetime"]
    else
      var timeKey := if whiteToMove then "wtime" else "btime";
      var incKey := if whiteToMove then "winc" else "binc";
      if timeKey in params then
        var inc := if incKey in params then params[incKey] else 0;
        var share := params[timeKey] / MOVES_TO_GO + inc;
        if share < 1 then 1 else share
      else DEFAULT_BUDGET_MS
  }

  /** The parser: the scan loop filling the dictionary, then the budget rules. */
  method ParseGoTime(tokens: seq<string>, whiteToMove: bool) returns (ms: int)
    ensures ms == Budget(Params(tokens), whiteToMove)
  {
    var params: map<string, int> := map[];
    var i := 0;
    while i < |tokens| - 1
      invariant 0 <= i <= |tokens|
      invariant Store(params, Pairs(tokens, i)) == Params(tokens)
    {
      var v := ParseInt(tokens[i + 1]);
      if v.Some? {
        params := params[tokens[i] := v.value];
        i := i + 2;
      } else {
        i := i + 1;
      }
    }
    if "movetime" in params {
      return params["movetime"];
    }
    var timeKey := if whiteToMove then "wtime" else "btime";
    var incKey := if whiteToMove then "winc" else "binc";
    if timeKey in params {
      var timeLeft := params[timeKey];
      var increment := if incKey in params then params[incKey] else 0;
      var share := timeLeft / MOVES_TO_GO + increment;
      return if share < 1 then 1 else share;
    }
    return DEFAULT_BUDGET_MS;
  }

  /** The positions of the key tokens of the pairs the scan stores from position i on. */
  function KeyPositions(tokens: seq<string>, i: nat): seq<nat>
    decreases |tokens| - i
  {
    if i + 1 >= |tokens| then []
    else if ParseInt(tokens[i + 1]).Some? then [i] + KeyPositions(tokens, i + 2)
    else KeyPositions(tokens, i + 1)
  }

  /**
   * Every stored pair comes from a key token at or after i, before the last
   * token, that is followed by a token spelling its value; the key
   * positions increase by at least two, so no token is both a key and a
   * value.
   */
  lemma {:induction false} PairsFromTokens(tokens: seq<string>, i: nat)
    ensures var ps, ks := Pairs(tokens, i), KeyPositions(tokens, i);
      && |ks| == |ps|
      && (forall j :: 0 <= j < |ps| ==> i <= ks[j] && PairAt(tokens, ks[j], ps[j].0, ps[j].1))
      && (forall j :: 0 < j < |ks| ==> ks[j - 1] + 2 <= ks[j])
    decreases |tokens| - i
  {
    if i + 1 < |tokens| {
      match ParseInt(tokens[i + 1])
      case Some(v) =>
        PairsFromTokens(tokens, i + 2);
        var ps, ks := Pairs(tokens, i), KeyPositions(tokens, i);
        assert ps == [(tokens[i], v)] + Pairs(tokens, i + 2);
        assert ks == [i] + KeyPositions(tokens, i + 2);
        forall j | 0 < j < |ps| ensures i <= ks[j] && PairAt(tokens, ks[j], ps[j].0, ps[j].1) {
          assert ps[j] == Pairs(tokens, i + 2)[j - 1];
          assert ks[j] == KeyPositions(tokens, i + 2)[j - 1];
        }
        assert PairAt(tokens, ks[0], ps[0].0, ps[0].1);
      case None =>
        PairsFromTokens(tokens, i + 1);
    }
  }

  /** Storing pairs none of which names k leaves k as it was. */
  lemma {:induction false} StoreUntouched(m: map<string, int>, ps: seq<(string, int)>, k: string)
    requires forall j :: 0 <= j < |ps| ==> ps[j].0 != k
    ensures k in Store(m, ps) <==> k in m
    ensures k in m ==> Store(m, ps)[k] == m[k]
    decreases |ps|
  {
    if ps != [] {
      assert ps[0].0 != k;
      forall l | 0 <= l < |ps[1..]| ensures ps[1..][l].0 != k {
        assert ps[1..][l] == ps[l + 1];
      }
      StoreUntouched(m[ps[0].0 := ps[0].1], ps[1..], k);
    }
  }

  /** After storing pairs, k holds the value of the last pair naming it. */
  lemma {:induction false} StoreLast(m: map<string, int>, ps: seq<(string, int)>, k: string, j: nat)
    requires j < |ps| && ps[j].0 == k
    requires forall l :: j < l < |ps| ==> ps[l].0 != k
    ensures k in Store(m, ps) && Store(m, ps)[k] == ps[j].1
    decreases j
  {
    var m' := m[ps[0].0 := ps[0].1];
    if j == 0 {
      forall l | 0 <= l < |ps[1..]| ensures ps[1..][l].0 != k {
        assert ps[1..][l] == ps[l + 1];
      }
      StoreUntouched(m', ps[1..], k);
    } else {
      forall l | j - 1 < l < |ps[1..]| ensures ps[1..][l].0 != k {
        assert ps[1..][l] == ps[l + 1];
      }
      StoreLast(m', ps[1..], k, j - 1);
    }
  }

  /** The last pair naming a key that the stored dictionary holds. */
  lemma {:induction false} LastWithKey(ps: seq<(string, int)>, k: string) returns (j: nat)
    requires k in Store(map[], ps)
    ensures j < |ps| && ps[j].0 == k && forall l :: j < l < |ps| ==> ps[l].0 != k
  {
    j := |ps|;
    while j > 0 && ps[j - 1].0 != k
      invariant 0 <= j <= |ps|
      invariant forall l :: j <= l < |ps| ==> ps[l].0 != k
    {
      j := j - 1;
    }
    if j == 0 {
      StoreUntouched(map[], ps, k);
      assert false;
    }
    j := j - 1;
  }

  /** A key is in the parameters only if some token before the last one names it and is followed by an integer. */
  lemma ParamsKeys(tokens: seq<string>, k: string)
    requires k in Params(tokens)
    ensures exists t :: PairAt(tokens, t, k, Params(tokens)[k])
  {
    var ps := Pairs(tokens, 0);
    PairsFromTokens(tokens, 0);
    var j := LastWithKey(ps, k);
    StoreLast(map[], ps, k, j);
    assert PairAt(tokens, KeyPositions(tokens, 0)[j], k, Params(tokens)[k]);
  }

  /**
   * In the usual form of the command, keys and integers alternating from
   * position i, the scan stores every key with the integer after it, in
   * order; a trailing key with no value is dropped.
   */
  lemma {:induction false} AlternatingPairs(tokens: seq<string>, i: nat)
    requires i <= |tokens|
    requires forall j :: i <= j < |tokens| && (j - i) % 2 == 1 ==> ParseInt(tokens[j]).Some?
    ensures |Pairs(tokens, i)| == (|tokens| - i) / 2
    ensures forall j :: 0 <= j < |Pairs(tokens, i)| ==> PairAt(tokens, i + 2 * j, Pairs(tokens, i)[j].0, Pairs(tokens, i)[j].1)
    decreases |tokens| - i
  {
    if i + 1 < |tokens| {
      OddOffsetsShift(tokens, i);
      AlternatingPairs(tokens, i + 2);
      PairsShift(tokens, i);
    }
  }

  /** The alternation seen from i carries over to i + 2. */
  lemma OddOffsetsShift(tokens: seq<string>, i: nat)
    requires i + 1 < |tokens|
    requires forall j :: i <= j < |tokens| && (j - i) % 2 == 1 ==> ParseInt(tokens[j]).Some?
    ensures ParseInt(tokens[i + 1]).Some?
    ensures forall j :: i + 2 <= j < |tokens| && (j - (i + 2)) % 2 == 1 ==> ParseInt(tokens[j]).Some?
  {
    assert (i + 1 - i) % 2 == 1;
    forall j | i + 2 <= j < |tokens| && (j - (i + 2)) % 2 == 1 ensures ParseInt(tokens[j]).Some? {
      assert (j - i) % 2 == 1;
    }
  }

  /** One pair at i, then the alternating pairs from i + 2. */
  lemma PairsShift(tokens: seq<string>, i: nat)
    requires i + 1 < |tokens| && ParseInt(tokens[i + 1]).Some?
    requires |Pairs(tokens, i + 2)| == (|tokens| - (i + 2)) / 2
    requires forall j :: 0 <= j < |Pairs(tokens, i + 2)| ==> PairAt(tokens, i + 2 + 2 * j, Pairs(tokens, i + 2)[j].0, Pairs(tokens, i + 2)[j].1)
    ensures |Pairs(tokens, i)| == (|tokens| - i) / 2
    ensures forall j :: 0 <= j < |Pairs(tokens, i)| ==> PairAt(tokens, i + 2 * j, Pairs(tokens, i)[j].0, Pairs(tokens, i)[j].1)
  {
    var ps := Pairs(tokens, i);
    var rest := Pairs(tokens, i + 2);
    assert ps == [(tokens[i], ParseInt(tokens[i + 1]).value)] + rest;
    assert (|tokens| - i) / 2 == (|tokens| - (i + 2)) / 2 + 1;
    forall j | 0 < j < |ps| ensures PairAt(tokens, i + 2 * j, ps[j].0, ps[j].1) {
      assert ps[j] == rest[j - 1];
      assert i + 2 + 2 * (j - 1) == i + 2 * j;
    }
  }

  /** A `movetime` parameter is the budget, exactly and unclamped, for either side, whatever else is given. */
  lemma MovetimeWins(params: map<string, int>, whiteToMove: bool, k: string, x: int)
    requires "movetime" in params && k != "movetime"
    ensures Budget(params, whiteToMove) == params["movetime"] == Budget(params, !whiteToMove)
    ensures Budget(params[k := x], whiteToMove) == Budget(params, whiteToMove)
  {
  }

  /**
   * Without `movetime` the budget is at least 1 ms. With the side's clock it
   * is a fortieth of the time left, rounded towards minus infinity, plus the
   * increment (0 when absent), unless that is below 1; without the clock it
   * is the default.
   */
  lemma ClockShare(params: map<string, int>, whiteToMove: bool)
    requires "movetime" !in params
    ensures Budget(params, whiteToMove) >= 1
    ensures var timeKey := if whiteToMove then "wtime" else "btime";
      var incKey := if whiteToMove then "winc" else "binc";
      var b := Budget(params, whiteToMove);
      && (timeKey in params ==>
            var inc := if incKey in params then params[incKey] else 0;
            && (b > 1 ==> MOVES_TO_GO * (b - inc) <= params[timeKey] < MOVES_TO_GO * (b - inc + 1))
            && (b == 1 ==> params[timeKey] < MOVES_TO_GO * (2 - inc)))
      && (timeKey !in params ==> b == DEFAULT_BUDGET_MS)
  {
  }

  /** The budget of the side to move ignores the other side's clock and increment. */
  lemma OwnClockOnly(params: map<string, int>, whiteToMove: bool, x: int)
    ensures var otherTime := if whiteToMove then "btime" else "wtime";
      var otherInc := if whiteToMove then "binc" else "winc";
      && Budget(params[otherTime := x], whiteToMove) == Budget(params, whiteToMove)
      && Budget(params[otherInc := x], whiteToMove) == Budget(params, whiteToMove)
  {
  }

  /** More time on the side's clock never gives a smaller budget. */
  lemma MoreTimeMoreBudget(params: map<string, int>, whiteToMove: bool, t1: int, t2: int)
    requires "movetime" !in params && t1 <= t2
    ensures var timeKey := if whiteToMove then "wtime" else "btime";
      Budget(params[timeKey := t1], whiteToMove) <= Budget(params[timeKey := t2], whiteToMove)
  {
  }

  /** A non-integer value makes the scan move on by one token only, so the value token can become a key. */
  lemma SkipExample()
    ensures Params(["wtime", "x", "100"]) == map["x" := 100]
    ensures Budget(Params(["wtime", "x", "100"]), true) == DEFAULT_BUDGET_MS
  {
    var tokens := ["wtime", "x", "100"];
    assert !IsDigit('x');
    assert ParseInt("x") == None;
    assert "100"[..2] == "10" && "10"[..1] == "1";
    assert RunValue("100") == 100;
    assert ParseInt("100") == Some(100);
    assert Pairs(tokens, 0) == Pairs(tokens, 1) == [("x", 100)];
  }
}
