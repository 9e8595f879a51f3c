/** Two of Catch's loops: replacing text in a string, and sizing the bars of the totals divider. */
module CatchLoops {
  import opened Basics

  // ---------- replacing text ----------

  predicate Occurs(s: string, pat: string, i: nat) {
    i + |pat| <= |s| && s[i..i + |pat|] == pat
  }

  /** The first occurrence at or after `k`. */
  ghost predicate FirstFrom(s: string, pat: string, k: nat, i: int) {
    k <= i && Occurs(s, pat, i) && forall j :: k <= j < i ==> !Occurs(s, pat, j)
  }

  ghost predicate NoneFrom(s: string, pat: string, k: nat) {
    forall j :: k <= j ==> !Occurs(s, pat, j)
  }

  /** `std::string::find`; None is `npos`. */
  function Find(s: string, pat: string, pos: nat): (r: Option<nat>)
    ensures match r case None => NoneFrom(s, pat, pos) case Some(i) => FirstFrom(s, pat, pos, i)
    decreases |s| - pos
  {
    if |s| < pos then None
    else if Occurs(s, pat, pos) then Some(pos)
    else Find(s, pat, pos + 1)
  }

  /** Left-to-right replacement without overlaps from `k` on; inserted text is not looked at again. */
  function ReplacedFrom(s: string, pat: string, with: string, k: nat): string
    requires pat != "" && k <= |s|
    decreases |s| - k
  {
    if |s| < k + |pat| then s[k..]
    else if Occurs(s, pat, k) then with + ReplacedFrom(s, pat, with, k + |pat|)
    else [s[k]] + ReplacedFrom(s, pat, with, k + 1)
  }

  function Replaced(s: string, pat: string, with: string): string
    requires pat != ""
  {
    ReplacedFrom(s, pat, with, 0)
  }

  lemma FourParts(a: string, b: string, c: string, d: string)
    ensures a + (b + c + d) == a + b + c + d
  {
  }

  lemma Between(s: string, k: nat, i: nat)
    requires k < i <= |s|
    ensures s[k..i] == [s[k]] + s[k + 1..i]
  {
  }

  lemma {:induction false} FirstReplaced(s: string, pat: string, with: string, k: nat, i: nat)
    requires pat != "" && FirstFrom(s, pat, k, i)
    ensures ReplacedFrom(s, pat, with, k) == s[k..i] + with + ReplacedFrom(s, pat, with, i + |pat|)
    decreases i - k
  {
    var rest := ReplacedFrom(s, pat, with, i + |pat|);
    if k == i {
      assert s[k..i] + with + rest == with + rest;
    } else {
      assert !Occurs(s, pat, k);
      FirstReplaced(s, pat, with, k + 1, i);
      Between(s, k, i);
      FourParts([s[k]], s[k + 1..i], with, rest);
    }
  }

  lemma {:induction false} NoneReplaced(s: string, pat: string, with: string, k: nat)
    requires pat != "" && k <= |s| && NoneFrom(s, pat, k)
    ensures ReplacedFrom(s, pat, with, k) == s[k..]
    decreases |s| - k
  {
    if k + |pat| <= |s| {
      assert !Occurs(s, pat, k);
      NoneReplaced(s, pat, with, k + 1);
    }
  }

  /** Replacing a pattern by itself changes nothing. */
  lemma {:induction false} ReplacedBySelf(s: string, pat: string, k: nat)
    requires pat != "" && k <= |s|
    ensures ReplacedFrom(s, pat, pat, k) == s[k..]
    decreases |s| - k
  {
    if k + |pat| <= |s| {
      if Occurs(s, pat, k) {
        ReplacedBySelf(s, pat, k + |pat|);
        assert ReplacedFrom(s, pat, pat, k) == s[k..k + |pat|] + s[k + |pat|..];
      } else {
        ReplacedBySelf(s, pat, k + 1);
        assert ReplacedFrom(s, pat, pat, k) == [s[k]] + s[k + 1..];
      }
    }
  }

  /** `str` is `front` and then the text from `k` on, so past `front` both have the same occurrences. */
  lemma OccursBehind(text: string, pat: string, str: string, front: string, k: nat, i: nat)
    requires k <= |text| && str == front + text[k..] && |front| <= i
    ensures Occurs(str, pat, i) <==> Occurs(text, pat, k + i - |front|)
  {
    var j := k + i - |front|;
    if j + |pat| <= |text| {
      assert str[i..i + |pat|] == text[j..j + |pat|];
    }
  }

  /** The variables `str` and `i` after one round. */
  function NextRound(str: string, pat: string, with: string, i: nat): (r: (string, Option<nat>))
    requires Occurs(str, pat, i)
    ensures r.1.Some? ==> Occurs(r.0, pat, r.1.value)
  {
    var next := str[..i] + with + str[i + |pat|..];
    (next, if i < |next| - |with| then Find(next, pat, i + |with|) else None)
  }

  /** What the loop keeps: `front` is finished, and from `k` on the text has not been looked at. */
  ghost predicate Going(text: string, pat: string, with: string, str: string, i: Option<nat>, front: string, k: nat) {
    && k <= |text| && str == front + text[k..]
    && (pat != "" ==> Replaced(text, pat, with) == front + ReplacedFrom(text, pat, with, k))
    && (pat == "" ==> k == 0 && if i.Some? then front == "" && i.value == 0 else front == with)
    && match i
       case None => pat != "" ==> NoneFrom(text, pat, k)
       case Some(n) => |front| <= n && FirstFrom(text, pat, k, k + n - |front|)
  }

  lemma FindBehind(text: string, pat: string, str: string, front: string, k: nat)
    requires k <= |text| && str == front + text[k..]
    ensures match Find(str, pat, |front|)
            case None => NoneFrom(text, pat, k)
            case Some(n) => |front| <= n && FirstFrom(text, pat, k, k + n - |front|)
  {
    var r := Find(str, pat, |front|);
    forall j | k <= j && (r.Some? ==> j < k + r.value - |front|) ensures !Occurs(text, pat, j) {
      OccursBehind(text, pat, str, front, k, j - k + |front|);
    }
    if r.Some? { OccursBehind(text, pat, str, front, k, r.value); }
  }

  /** `str` after a round, in terms of the text. */
  lemma RoundText(text: string, with: string, str: string, front: string, k: nat, i: nat, m: nat, n: nat, tail: string)
    returns (front': string, next: string)
    requires k <= |text| && str == front + text[k..] && |front| <= i && i + m <= |str| && n == k + i - |front|
    ensures n + m <= |text| && next == front' + text[n + m..]
    ensures front + (text[k..n] + with + tail) == front' + tail && (n == 0 == |front| ==> front' == with)
    ensures next == str[..i] + with + str[i + m..]
    ensures |front'| == i + |with|
  {
    assert str[..i] == front + text[k..n] && str[i + m..] == text[n + m..];
    front' := str[..i] + with;
    next := front' + str[i + m..];
    FourParts(front, text[k..n], with, tail);
  }

  lemma RoundFinds(text: string, pat: string, with: string, next: string, i: nat, front: string, k: nat)
    returns (j: Option<nat>)
    requires k <= |text| && next == front + text[k..] && |front| == i + |with|
    ensures j == if i < |next| - |with| then Find(next, pat, i + |with|) else None
    ensures match j
            case None => pat != "" ==> NoneFrom(text, pat, k)
            case Some(n) => |front| <= n && FirstFrom(text, pat, k, k + n - |front|)
  {
    FindBehind(text, pat, next, front, k);
    j := if i < |next| - |with| then Find(next, pat, i + |with|) else None;
  }

  lemma RoundReplaces(text: string, pat: string, with: string, str: string, i: nat, front: string, k: nat)
    returns (front': string, next: string)
    requires (pat != "" || text == "") && Going(text, pat, with, str, Some(i), front, k)
    ensures var k' := k + i - |front| + |pat|;
            && i + |pat| <= |str| && k' <= |text| && next == front' + text[k'..] && |front'| == i + |with|
            && (pat != "" ==> Replaced(text, pat, with) == front' + ReplacedFrom(text, pat, with, k'))
            && (pat == "" ==> front' == with)
    ensures next == str[..i] + with + str[i + |pat|..]
  {
    hide ReplacedFrom, NoneFrom;
    OccursBehind(text, pat, str, front, k, i);
    var n := k + i - |front|;
    if pat == "" {
      front', next := RoundText(text, with, str, front, k, i, |pat|, n, "");
    } else {
      var tail := ReplacedFrom(text, pat, with, n + |pat|);
      FirstReplaced(text, pat, with, k, n);
      front', next := RoundText(text, with, str, front, k, i, |pat|, n, tail);
    }
  }

  lemma RoundKeeps(text: string, pat: string, with: string, str: string, i: nat, front: string, k: nat)
    returns (front': string, k': nat, next: string, j: Option<nat>)
    requires (pat != "" || text == "") && Going(text, pat, with, str, Some(i), front, k)
    ensures Occurs(str, pat, i) && next == str[..i] + with + str[i + |pat|..]
    ensures j == if i < |next| - |with| then Find(next, pat, i + |with|) else None
    ensures Going(text, pat, with, next, j, front', k') && if pat != "" then k < k' else j == None && k' == k
  {
    hide ReplacedFrom, NoneFrom, Occurs;
    OccursBehind(text, pat, str, front, k, i);
    var n := k + i - |front|;
    k' := n + |pat|;
    front', next := RoundReplaces(text, pat, with, str, i, front, k);
    j := RoundFinds(text, pat, with, next, i, front', k');
  }

  lemma Starts(text: string, pat: string, with: string)
    requires pat != "" || text == ""
    ensures Going(text, pat, with, text, Find(text, pat, 0), "", 0)
    ensures Find(text, pat, 0).Some? <==> exists i: nat :: Occurs(text, pat, i)
  {
    assert "" + text[0..] == text;
    FindBehind(text, pat, text, "", 0);
    if pat != "" {
      assert "" + ReplacedFrom(text, pat, with, 0) == ReplacedFrom(text, pat, with, 0);
    } else {
      assert Occurs(text, pat, 0);
    }
  }

  lemma Stops(text: string, pat: string, with: string, str: string, front: string, k: nat)
    requires (pat != "" || text == "") && Going(text, pat, with, str, None, front, k)
    ensures str == if pat != "" then Replaced(text, pat, with) else with
  {
    if pat != "" { NoneReplaced(text, pat, with, k); }
  }

  method Round(text: string, pat: string, with: string, str: string, i: nat, ghost front: string, ghost k: nat)
    returns (next: string, j: Option<nat>, ghost front': string, ghost k': nat)
    requires (pat != "" || text == "") && Going(text, pat, with, str, Some(i), front, k)
    ensures Occurs(str, pat, i) && (next, j) == NextRound(str, pat, with, i)
    ensures Going(text, pat, with, next, j, front', k') && if pat != "" then k < k' else j == None && k' == k
  {
    ghost var after, found;
    front', k', after, found := RoundKeeps(text, pat, with, str, i, front, k);
    next := str[..i] + with + str[i + |pat|..];
    if i < |next| - |with| {
      j := Find(next, pat, i + |with|);
    } else {
      j := None;
    }
    assert next == after && j == found;
  }

  /** With an empty pattern the loop ends only on an empty string (see `EmptyPatternGoesOn`). */
  method ReplaceInPlace(text: string, replaceThis: string, withThis: string) returns (str: string, replaced: bool)
    requires replaceThis != "" || text == ""
    ensures str == if replaceThis != "" then Replaced(text, replaceThis, withThis) else withThis
    ensures replaced <==> exists i: nat :: Occurs(text, replaceThis, i)
  {
    str, replaced := text, false;
    ghost var front, k := "", 0;
    Starts(text, replaceThis, withThis);
    var i := Find(str, replaceThis, 0);
    while i != None
      invariant Going(text, replaceThis, withThis, str, i, front, k)
      invariant if replaced then Find(text, replaceThis, 0).Some? else i == Find(text, replaceThis, 0)
      decreases |text| - k, i.Some?
    {
      replaced := true;
      str, i, front, k := Round(text, replaceThis, withThis, str, i.value, front, k);
    }
    Stops(text, replaceThis, withThis, str, front, k);
  }

  /** The loop's variables after `k` rounds. */
  ghost function Rounds(text: string, pat: string, with: string, k: nat): (r: (string, Option<nat>))
    ensures r.1.Some? ==> Occurs(r.0, pat, r.1.value)
  {
    if k == 0 then (text, Find(text, pat, 0))
    else
      var (str, i) := Rounds(text, pat, with, k - 1);
      if i == None then (str, None) else NextRound(str, pat, with, i.value)
  }

  /** With an empty pattern and a string that is not empty the loop never ends: the string grows for ever. */
  lemma {:induction false} EmptyPatternGoesOn(text: string, with: string, k: nat)
    requires text != ""
    ensures Rounds(text, "", with, k).1 == Some(k * |with|)
    ensures |Rounds(text, "", with, k).0| == |text| + k * |with|
  {
    if k > 0 {
      EmptyPatternGoesOn(text, with, k - 1);
      var str, i := Rounds(text, "", with, k - 1).0, (k - 1) * |with|;
      var next := str[..i] + with + str[i..];
      assert i + |with| == k * |with|;
      assert Occurs(next, "", i + |with|);
    } else {
      assert Occurs(text, "", 0);
    }
  }

  /** The loop is left at the latest when the text has been looked at. */
  lemma {:induction false} RoundsEnd(text: string, pat: string, with: string, n: nat,
                                     str: string, i: Option<nat>, front: string, k: nat)
    returns (m: nat)
    requires (pat != "" || text == "") && Going(text, pat, with, str, i, front, k)
             && Rounds(text, pat, with, n) == (str, i)
    ensures Rounds(text, pat, with, m).1 == None
    decreases |text| - k, i.Some?
  {
    m := n;
    if i.Some? {
      var front', k', next, j := NextGoing(text, pat, with, n, str, i.value, front, k);
      m := RoundsEnd(text, pat, with, n + 1, next, j, front', k');
    }
  }

  lemma NextGoing(text: string, pat: string, with: string, n: nat, str: string, i: nat, front: string, k: nat)
    returns (front': string, k': nat, next: string, j: Option<nat>)
    requires (pat != "" || text == "") && Going(text, pat, with, str, Some(i), front, k)
    requires Rounds(text, pat, with, n) == (str, Some(i))
    ensures Rounds(text, pat, with, n + 1) == (next, j)
    ensures Going(text, pat, with, next, j, front', k') && if pat != "" then k < k' else j == None && k' == k
  {
    front', k', next, j := RoundKeeps(text, pat, with, str, i, front, k);
  }

  /** The loop ends if and only if the pattern is not empty or the string is. */
  lemma EndsIff(text: string, pat: string, with: string)
    ensures (exists m :: Rounds(text, pat, with, m).1 == None) <==> pat != "" || text == ""
  {
    if pat != "" || text == "" {
      Starts(text, pat, with);
      var m := RoundsEnd(text, pat, with, 0, text, Find(text, pat, 0), "", 0);
    } else {
      forall m ensures Rounds(text, pat, with, m).1 != None {
        EmptyPatternGoesOn(text, with, m);
      }
    }
  }

  // ---------- the totals divider ----------

  const WIDTH: nat := 80
  const WORD: nat := 0x1_0000_0000_0000_0000

  /** The product is computed in a 64-bit word. */
  function MakeRatio(number: nat, total: nat): nat {
    var ratio := if total > 0 then (WIDTH * number) % WORD / total else 0;
    if ratio == 0 && number > 0 then 1 else ratio
  }

  datatype Bars = Bars(failed: nat, failedButOk: nat, passed: nat) {
    function Sum(): nat { failed + failedButOk + passed }

    function Max(): nat {
      if failed >= failedButOk && failed >= passed then failed
      else if failedButOk >= passed then failedButOk
      else passed
    }

    predicate Within(b: Bars, d: int) {
      -d <= failed - b.failed <= d && -d <= failedButOk - b.failedButOk <= d && -d <= passed - b.passed <= d
    }

    predicate SameZeros(b: Bars) {
      (failed == 0 <==> b.failed == 0) && (failedButOk == 0 <==> b.failedButOk == 0) && (passed == 0 <==> b.passed == 0)
    }
  }

  /** `r` is `b` with `d` added to the last of the largest bars, in the order failed, failedButOk, passed. */
  predicate AddsToLastMax(b: Bars, d: int, r: Bars) {
    || (b.failed > b.failedButOk && b.failed > b.passed
        && r.failed == b.failed + d && r.failedButOk == b.failedButOk && r.passed == b.passed)
    || (b.failedButOk >= b.failed && b.failedButOk > b.passed
        && r.failed == b.failed && r.failedButOk == b.failedButOk + d && r.passed == b.passed)
    || (b.passed >= b.failed && b.passed >= b.failedButOk
        && r.failed == b.failed && r.failedButOk == b.failedButOk && r.passed == b.passed + d)
  }

  /** Adds to the bar that `findMax` refers to. */
  method AddToMax(b: Bars, d: int) returns (r: Bars)
    requires -1 <= d <= 1 && 0 < b.Max()
    ensures AddsToLastMax(b, d, r)
    ensures r.Sum() == b.Sum() + d && r.Within(b, 1) && (0 < b.Max() + d ==> 0 < r.Max() && r.SameZeros(b))
  {
    if b.failed > b.failedButOk && b.failed > b.passed {
      r := b.(failed := b.failed + d);
    } else if b.failedButOk > b.passed {
      r := b.(failedButOk := b.failedButOk + d);
    } else {
      r := b.(passed := b.passed + d);
    }
  }

  function Bumped(b: Bars, d: int): (r: Bars)
    requires -1 <= d <= 1 && 0 < b.Max()
    ensures AddsToLastMax(b, d, r) && r.Sum() == b.Sum() + d && (0 < b.Max() + d ==> 0 < r.Max())
  {
    if b.failed > b.failedButOk && b.failed > b.passed then b.(failed := b.failed + d)
    else if b.failedButOk > b.passed then b.(failedButOk := b.failedButOk + d)
    else b.(passed := b.passed + d)
  }

  /** The bars after both loops. */
  function Fitted(b: Bars): Bars
    requires 0 < b.Max()
    decreases if b.Sum() < WIDTH then WIDTH - b.Sum() else b.Sum()
  {
    if b.Sum() == WIDTH - 1 then b
    else if b.Sum() < WIDTH - 1 then Fitted(Bumped(b, 1))
    else
      assert b.Sum() <= 3 * b.Max();
      Fitted(Bumped(b, -1))
  }

  /** One round of either loop. */
  lemma FittedNext(b: Bars, d: int, r: Bars)
    requires 0 < b.Max() && AddsToLastMax(b, d, r)
    requires d == if b.Sum() < WIDTH - 1 then 1 else -1
    requires b.Sum() != WIDTH - 1
    ensures 0 < r.Max() && Fitted(r) == Fitted(b)
  {
    assert b.Sum() <= 3 * b.Max();
    assert r == Bumped(b, d);
  }

  lemma AlreadyFits(b: Bars)
    requires 0 < b.Max() && b.Sum() == WIDTH - 1
    ensures Fitted(b) == b
  {
  }

  lemma Quotient(a: nat, b: nat, c: nat)
    requires 0 < b && a <= c * b
    ensures a / b <= c
  {
    var q := a / b;
    assert q * b <= a;
    if c < q { MulMonotone(c + 1, q, b); }
  }

  lemma RatioBounds(number: nat, total: nat)
    requires number <= total && 0 < total
    ensures MakeRatio(number, total) == 0 <==> number == 0
    ensures MakeRatio(number, total) <= WIDTH
  {
    var product := (WIDTH * number) % WORD;
    assert product <= WIDTH * number <= WIDTH * total;
    Quotient(product, total, WIDTH);
    if number == 0 { assert product == 0; }
  }

  ghost function Ratios(passed: nat, failed: nat, failedButOk: nat): Bars {
    var total := passed + failed + failedButOk;
    Bars(MakeRatio(failed, total), MakeRatio(failedButOk, total), MakeRatio(passed, total))
  }

  /** As long as no product wraps, rounding leaves the three ratios at most three off the width of the line. */
  lemma RatioSum(passed: nat, failed: nat, failedButOk: nat)
    requires var total := passed + failed + failedButOk; 0 < total && WIDTH * total < WORD
    ensures WIDTH - 2 <= Ratios(passed, failed, failedButOk).Sum() <= WIDTH + 2
  {
    var total := passed + failed + failedButOk;
    RatioNearQuotient(passed, total);
    RatioNearQuotient(failed, total);
    RatioNearQuotient(failedButOk, total);
    ThreeQuotients(WIDTH * passed, WIDTH * failed, WIDTH * failedButOk, total);
  }

  lemma RatioNearQuotient(number: nat, total: nat)
    requires 0 < total && WIDTH * number < WORD
    ensures var q := WIDTH * number / total; q <= MakeRatio(number, total) <= if q == 0 then 1 else q
  {
    assert (WIDTH * number) % WORD == WIDTH * number;
  }

  lemma ThreeQuotients(p: nat, f: nat, o: nat, t: nat)
    requires 0 < t && p + f + o == WIDTH * t
    ensures WIDTH - 2 <= p / t + f / t + o / t <= WIDTH
  {
    var q := p / t + f / t + o / t;
    assert p == p / t * t + p % t && f == f / t * t + f % t && o == o / t * t + o % t;
    assert q * t == p / t * t + f / t * t + o / t * t;
    if q < WIDTH - 2 { MulMonotone(q, WIDTH - 3, t); }
    if WIDTH < q { MulMonotone(WIDTH + 1, q, t); }
  }

  /** The first loop. */
  method Widen(start: Bars) returns (bars: Bars)
    requires 0 < start.Max()
    ensures WIDTH - 1 <= start.Sum() ==> bars == start
    ensures start.Sum() < WIDTH ==>
              bars.Sum() == WIDTH - 1 && bars.SameZeros(start) && bars.Within(start, WIDTH - 1 - start.Sum())
    ensures 0 < bars.Max() && Fitted(bars) == Fitted(start)
  {
    hide Fitted, AddsToLastMax;
    bars := start;
    while bars.Sum() < WIDTH - 1
      invariant bars == start || start.Sum() <= bars.Sum() <= WIDTH - 1
      invariant 0 < bars.Max() && bars.SameZeros(start) && bars.Within(start, bars.Sum() - start.Sum())
      invariant Fitted(bars) == Fitted(start)
      decreases WIDTH - bars.Sum()
    {
      ghost var was := bars;
      bars := AddToMax(bars, 1);
      FittedNext(was, 1, bars);
    }
  }

  /** The second loop. */
  method Narrow(start: Bars) returns (bars: Bars)
    requires WIDTH - 1 <= start.Sum() && 0 < start.Max()
    ensures bars.Sum() == WIDTH - 1 && bars.SameZeros(start) && bars.Within(start, start.Sum() - (WIDTH - 1))
    ensures bars == Fitted(start)
  {
    hide Fitted, AddsToLastMax;
    bars := start;
    while bars.Sum() > WIDTH - 1
      invariant WIDTH - 1 <= bars.Sum() <= start.Sum()
      invariant bars.SameZeros(start) && bars.Within(start, start.Sum() - bars.Sum())
      invariant 0 < bars.Max() && Fitted(bars) == Fitted(start)
      decreases bars.Sum()
    {
      ghost var was := bars;
      assert bars.Sum() <= 3 * bars.Max();
      bars := AddToMax(bars, -1);
      FittedNext(was, -1, bars);
    }
    AlreadyFits(bars);
  }

  method Adjust(start: Bars) returns (bars: Bars)
    requires 0 < start.Max()
    ensures bars == Fitted(start) && bars.Sum() == WIDTH - 1 && bars.SameZeros(start)
    ensures bars.Within(start, if start.Sum() < WIDTH then WIDTH - 1 - start.Sum() else start.Sum() - (WIDTH - 1))
  {
    bars := Widen(start);
    bars := Narrow(bars);
  }

  lemma RatiosBounds(passed: nat, failed: nat, failedButOk: nat)
    requires 0 < passed + failed + failedButOk
    ensures var r := Ratios(passed, failed, failedButOk);
            && (r.failed == 0 <==> failed == 0) && (r.failedButOk == 0 <==> failedButOk == 0)
            && (r.passed == 0 <==> passed == 0) && 0 < r.Max()
            && (WIDTH * (passed + failed + failedButOk) < WORD ==> WIDTH - 2 <= r.Sum() <= WIDTH + 2)
  {
    hide MakeRatio;
    var total := passed + failed + failedButOk;
    RatioBounds(failed, total);
    RatioBounds(failedButOk, total);
    RatioBounds(passed, total);
    if WIDTH * total < WORD { RatioSum(passed, failed, failedButOk); }
  }

  /** With the same number failed and passed and no other, the passed bar is the shorter one. */
  lemma EqualCounts(n: nat)
    requires 0 < n && WIDTH * (2 * n) < WORD
    ensures 0 < Ratios(n, n, 0).Max() && Fitted(Ratios(n, n, 0)) == Bars(40, 0, 39)
  {
    assert WIDTH * n == 40 * (2 * n);
    QuotientExact(40, 2 * n);
    assert MakeRatio(0, 2 * n) == 0;
    assert Ratios(n, n, 0) == Bars(40, 0, 40);
  }

  /** With three equal counts it is the longer one. */
  lemma ThreeEqualCounts(n: nat)
    requires 0 < n && WIDTH * (3 * n) < WORD
    ensures 0 < Ratios(n, n, n).Max() && Fitted(Ratios(n, n, n)) == Bars(26, 26, 27)
  {
    assert WIDTH * n / (3 * n) == 26 by {
      assert WIDTH * n == 26 * (3 * n) + 2 * n;
      QuotientNear(26, 3 * n, 2 * n);
    }
    assert Ratios(n, n, n) == Bars(26, 26, 26);
  }

  lemma QuotientExact(q: nat, b: nat)
    requires 0 < b
    ensures q * b / b == q
  {
    QuotientNear(q, b, 0);
  }

  lemma QuotientNear(q: nat, b: nat, r: nat)
    requires r < b
    ensures (q * b + r) / b == q
  {
    var a := (q * b + r) / b;
    assert a * b <= q * b + r < a * b + b;
    if q < a { MulMonotone(q + 1, a, b); }
    if a < q { MulMonotone(a + 1, q, b); }
  }

  /** The counts are numbers of test cases that exist, so that their total fits a word. */
  method PrintTotalsDivider(passed: nat, failed: nat, failedButOk: nat) returns (bars: Bars, line: string)
    requires passed + failed + failedButOk < WORD
    ensures line == seq(WIDTH - 1, _ => '=')
    ensures 0 < passed + failed + failedButOk ==>
              && bars.Sum() == WIDTH - 1
              && (bars.failed == 0 <==> failed == 0)
              && (bars.failedButOk == 0 <==> failedButOk == 0)
              && (bars.passed == 0 <==> passed == 0)
    ensures 0 < passed + failed + failedButOk ==>
              var ratios := Ratios(passed, failed, failedButOk); 0 < ratios.Max() && bars == Fitted(ratios)
    ensures failed == passed && failedButOk == 0 < WIDTH * (2 * passed) < WORD ==> bars == Bars(40, 0, 39)
    ensures 0 < WIDTH * (passed + failed + failedButOk) < WORD ==> bars.Within(Ratios(passed, failed, failedButOk), 3)
  {
    hide MakeRatio, Fitted;
    var total := passed + failed + failedButOk;
    if total > 0 {
      bars := Bars(MakeRatio(failed, total), MakeRatio(failedButOk, total), MakeRatio(passed, total));
      RatiosBounds(passed, failed, failedButOk);
      if failed == passed && failedButOk == 0 < WIDTH * (2 * passed) < WORD { EqualCounts(passed); }
      bars := Adjust(bars);
      line := seq(bars.failed, _ => '=') + seq(bars.failedButOk, _ => '=') + seq(bars.passed, _ => '=');
    } else {
      bars, line := Bars(0, 0, 0), seq(WIDTH - 1, _ => '=');
    }
  }
}
