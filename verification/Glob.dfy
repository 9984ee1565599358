/** The glob matcher of constants.hpp and the routing of KEYS patterns in store.hpp. */
module Glob {
  import opened Bytes

  const STAR: byte := 42
  const QUESTION: byte := 63
  const BRACKET: byte := 91

  /** The documented meaning: `*` stands for any sequence, `?` for one byte, all else for itself. */
  ghost predicate Accepts(pattern: Str, value: Str)
    decreases |pattern|
  {
    if pattern == [] then value == []
    else if pattern[0] == STAR then
      exists k :: 0 <= k <= |value| && Accepts(pattern[1..], value[k..])
    else
      value != [] && (pattern[0] == QUESTION || pattern[0] == value[0]) && Accepts(pattern[1..], value[1..])
  }

  /** Without `*`: the same length, and byte for byte the same or `?`. */
  lemma {:induction false} PlainMeaning(pattern: Str, value: Str)
    requires forall i :: 0 <= i < |pattern| ==> pattern[i] as int != 42
    ensures Accepts(pattern, value)
       <==> |pattern| == |value| && forall i :: 0 <= i < |pattern| ==> pattern[i] == value[i] || pattern[i] as int == 63
    decreases |pattern|
  {
    if pattern != [] && value != [] {
      PlainMeaning(pattern[1..], value[1..]);
      assert pattern == [pattern[0]] + pattern[1..] && value == [value[0]] + value[1..];
    }
  }

  /** Behind its first `*` a pattern may go on anywhere. */
  lemma {:induction false} StarMeaning(head: Str, tail: Str, value: Str)
    requires forall i :: 0 <= i < |head| ==> head[i] as int != 42
    ensures Accepts(head + [42] + tail, value)
       <==> |head| <= |value| && Accepts(head, value[..|head|])
            && exists k :: |head| <= k <= |value| && Accepts(tail, value[k..])
    decreases |head|
  {
    var pattern := head + [42] + tail;
    if head == [] {
      assert pattern[1..] == tail && value[..0] == [];
    } else if value != [] {
      var h, v := head[1..], value[1..];
      assert pattern[1..] == h + [42] + tail;
      StarMeaning(h, tail, v);
      if |head| <= |value| { assert value[..|head|][1..] == v[..|h|]; }
      if k :| |head| <= k <= |value| && Accepts(tail, value[k..]) { assert v[k - 1..] == value[k..]; }
      if k :| |h| <= k <= |v| && Accepts(tail, v[k..]) { assert value[k + 1..] == v[k..]; }
    }
  }

  /** The state of the matching loop: two cursors, the last `*` taken as a wildcard (-1 for none),
      and the value position that wildcard was last extended to. */
  ghost predicate Loop(pattern: Str, value: Str, p: int, v: int, star: int, mark: int) {
    -1 <= star < p <= |pattern| && 0 <= mark <= v <= |value| && 0 <= p
  }

  function OnlyStars(pattern: Str, p: nat): bool
    requires p <= |pattern|
    decreases |pattern| - p
  {
    p == |pattern| || (pattern[p] == STAR && OnlyStars(pattern, p + 1))
  }

  /** What the loop answers from a given state. */
  ghost function Run(pattern: Str, value: Str, p: nat, v: nat, star: int, mark: nat): bool
    requires Loop(pattern, value, p, v, star, mark)
    decreases |value| - mark, |pattern| - star, |value| - v
  {
    if v == |value| then OnlyStars(pattern, p)
    else if p < |pattern| && (pattern[p] == QUESTION || pattern[p] == value[v]) then
      Run(pattern, value, p + 1, v + 1, star, mark)
    else if p < |pattern| && pattern[p] == STAR then Run(pattern, value, p + 1, v, p, v)
    else if star >= 0 then Run(pattern, value, star + 1, mark + 1, star, mark + 1)
    else false
  }

  ghost function Answer(pattern: Str, value: Str): bool {
    Run(pattern, value, 0, 0, -1, 0)
  }

  /** glob_match, constants.hpp. The decreases clause is the termination argument for the
      backtracking branch. */
  method GlobMatch(pattern: Str, value: Str) returns (r: bool)
    ensures r == Answer(pattern, value)
    ensures r ==> Accepts(pattern, value)
    ensures STAR !in value || STAR !in pattern ==> r == Accepts(pattern, value)
  {
    var p, v, star, mark := 0, 0, -1, 0;
    AnswerSound(pattern, value);
    if STAR !in value || STAR !in pattern { AnswerComplete(pattern, value); }
    while v < |value|
      invariant Loop(pattern, value, p, v, star, mark)
      invariant Run(pattern, value, p, v, star, mark) == Answer(pattern, value)
      decreases |value| - mark, |pattern| - star, |value| - v
    {
      if p < |pattern| && (pattern[p] == QUESTION || pattern[p] == value[v]) {
        p := p + 1;
        v := v + 1;
      } else if p < |pattern| && pattern[p] == STAR {
        star := p;
        p := p + 1;
        mark := v;
      } else if star >= 0 {
        p := star + 1;
        mark := mark + 1;
        v := mark;
      } else {
        return false;
      }
    }
    while p < |pattern| && pattern[p] == STAR
      invariant 0 <= p <= |pattern|
      invariant OnlyStars(pattern, p) == Answer(pattern, value)
    {
      p := p + 1;
    }
    return p == |pattern|;
  }

  // ----- soundness: an accepted value always meets the declarative meaning

  lemma {:induction false} StarsAcceptEmpty(pattern: Str, p: nat)
    requires p <= |pattern|
    ensures OnlyStars(pattern, p) <==> Accepts(pattern[p..], [])
    decreases |pattern| - p
  {
    if p < |pattern| {
      StarsAcceptEmpty(pattern, p + 1);
      var rest := pattern[p..];
      assert rest[1..] == pattern[p + 1..];
      var none: Str := [];
      assert none[0..] == none;
      assert forall k :: 0 <= k <= |none| ==> none[k..] == none;
    }
  }

  /** A wildcard may absorb further bytes: acceptance after `*` at a later position carries over
      to any earlier one. */
  lemma StarAbsorbs(pattern: Str, value: Str, p: nat, v: nat, k: nat)
    requires p < |pattern| && pattern[p] == STAR && v <= k <= |value|
    requires Accepts(pattern[p + 1..], value[k..])
    ensures Accepts(pattern[p..], value[v..])
  {
    assert pattern[p..][1..] == pattern[p + 1..];
    assert value[v..][k - v..] == value[k..];
  }

  lemma {:induction false} RunSound(pattern: Str, value: Str, p: nat, v: nat, star: int, mark: nat)
    requires Loop(pattern, value, p, v, star, mark)
    requires Run(pattern, value, p, v, star, mark)
    ensures Accepts(pattern[p..], value[v..])
         || (star >= 0 && exists k :: mark < k <= |value| && Accepts(pattern[star + 1..], value[k..]))
    decreases |value| - mark, |pattern| - star, |value| - v
  {
    if v == |value| {
      StarsAcceptEmpty(pattern, p);
      assert value[v..] == [];
    } else if p < |pattern| && (pattern[p] == QUESTION || pattern[p] == value[v]) {
      RunSound(pattern, value, p + 1, v + 1, star, mark);
      if Accepts(pattern[p + 1..], value[v + 1..]) {
        if pattern[p] == STAR {
          StarAbsorbs(pattern, value, p, v, v + 1);
        } else {
          assert pattern[p..][1..] == pattern[p + 1..] && value[v..][1..] == value[v + 1..];
        }
      }
    } else if p < |pattern| && pattern[p] == STAR {
      RunSound(pattern, value, p + 1, v, p, v);
      var k :| v <= k <= |value| && Accepts(pattern[p + 1..], value[k..]);
      StarAbsorbs(pattern, value, p, v, k);
    } else {
      RunSound(pattern, value, star + 1, mark + 1, star, mark + 1);
      if Accepts(pattern[star + 1..], value[mark + 1..]) {
      } else {
        var k :| mark + 1 < k <= |value| && Accepts(pattern[star + 1..], value[k..]);
        assert mark < k;
      }
    }
  }

  lemma AnswerSound(pattern: Str, value: Str)
    ensures Answer(pattern, value) ==> Accepts(pattern, value)
  {
    if Answer(pattern, value) {
      RunSound(pattern, value, 0, 0, -1, 0);
      assert pattern[0..] == pattern && value[0..] == value;
    }
  }

  // ----- completeness when `*` never stands for itself

  /** No wildcard between the last `*` and the cursor, so that stretch consumes one byte each. */
  ghost predicate Plain(pattern: Str, p: nat, v: nat, star: int, mark: nat)
    requires p <= |pattern| && -1 <= star < p
  {
    star >= 0 ==> v - mark == p - (star + 1) && (forall i :: star < i < p ==> pattern[i] != STAR)
  }

  /** Walking over a stretch without wildcards consumes exactly its length. */
  lemma {:induction false} StretchConsumes(pattern: Str, value: Str, a: nat, b: nat, k: nat)
    requires a <= b <= |pattern| && k <= |value|
    requires forall i :: a <= i < b ==> pattern[i] != STAR
    requires Accepts(pattern[a..], value[k..])
    ensures k + (b - a) <= |value| && Accepts(pattern[b..], value[k + (b - a)..])
    decreases b - a
  {
    if a < b {
      assert pattern[a..][1..] == pattern[a + 1..] && value[k..][1..] == value[k + 1..];
      StretchConsumes(pattern, value, a + 1, b, k + 1);
    }
  }

  ghost predicate Alternative(pattern: Str, value: Str, star: int, mark: nat)
    requires -1 <= star < |pattern| && mark <= |value|
  {
    star >= 0 && exists k :: mark < k <= |value| && Accepts(pattern[star + 1..], value[k..])
  }

  lemma StepAccepts(pattern: Str, value: Str, p: nat, v: nat)
    requires p < |pattern| && v < |value| && value[v] != STAR && (pattern[p] == QUESTION || pattern[p] == value[v])
    ensures Accepts(pattern[p..], value[v..]) ==> Accepts(pattern[p + 1..], value[v + 1..])
  {
    assert pattern[p..][1..] == pattern[p + 1..] && value[v..][1..] == value[v + 1..];
  }

  lemma Mismatch(pattern: Str, value: Str, p: nat, v: nat)
    requires p <= |pattern| && v < |value|
    requires p < |pattern| ==> pattern[p] != QUESTION && pattern[p] != value[v] && pattern[p] != STAR
    ensures !Accepts(pattern[p..], value[v..])
  {
  }

  lemma {:induction false} RunComplete(pattern: Str, value: Str, p: nat, v: nat, star: int, mark: nat)
    requires Loop(pattern, value, p, v, star, mark)
    requires STAR !in value
    requires Plain(pattern, p, v, star, mark)
    requires Accepts(pattern[p..], value[v..]) || Alternative(pattern, value, star, mark)
    ensures Run(pattern, value, p, v, star, mark)
    decreases |value| - mark, |pattern| - star, |value| - v
  {
    hide Accepts;
    if v == |value| {
      if Alternative(pattern, value, star, mark) {
        var k :| mark < k <= |value| && Accepts(pattern[star + 1..], value[k..]);
        StretchConsumes(pattern, value, star + 1, p, k);
        assert false;
      }
      StarsAcceptEmpty(pattern, p);
      assert value[v..] == [];
    } else if p < |pattern| && (pattern[p] == QUESTION || pattern[p] == value[v]) {
      StepAccepts(pattern, value, p, v);
      RunComplete(pattern, value, p + 1, v + 1, star, mark);
    } else if p < |pattern| && pattern[p] == STAR {
      if Alternative(pattern, value, star, mark) {
        var k :| mark < k <= |value| && Accepts(pattern[star + 1..], value[k..]);
        StretchConsumes(pattern, value, star + 1, p, k);
        AbsorbedFrom(pattern, value, p, v, k + (p - (star + 1)));
      }
      AcceptsAfterStar(pattern, value, p, v);
      RunComplete(pattern, value, p + 1, v, p, v);
    } else {
      Mismatch(pattern, value, p, v);
      var k :| mark < k <= |value| && Accepts(pattern[star + 1..], value[k..]);
      if k != mark + 1 {
        assert mark + 1 < k <= |value| && Accepts(pattern[star + 1..], value[k..]);
      }
      RunComplete(pattern, value, star + 1, mark + 1, star, mark + 1);
    }
  }

  lemma StarUnfolds(pattern: Str, value: Str)
    requires pattern != [] && pattern[0] == STAR && Accepts(pattern, value)
    ensures exists k :: 0 <= k <= |value| && Accepts(pattern[1..], value[k..])
  {
  }

  /** A pattern that starts with `*` goes on at some later value position. */
  lemma StarGoesOn(pattern: Str, value: Str, p: nat, k: nat) returns (j: nat)
    requires p < |pattern| && pattern[p] == STAR && k <= |value| && Accepts(pattern[p..], value[k..])
    ensures k <= j <= |value| && Accepts(pattern[p + 1..], value[j..])
  {
    hide Accepts;
    assert pattern[p..][1..] == pattern[p + 1..];
    StarUnfolds(pattern[p..], value[k..]);
    var i :| 0 <= i <= |value[k..]| && Accepts(pattern[p + 1..], value[k..][i..]);
    assert value[k..][i..] == value[k + i..];
    j := k + i;
  }

  /** `*` accepted from a later value position is accepted from any earlier one. */
  lemma AbsorbedFrom(pattern: Str, value: Str, p: nat, v: nat, k: nat)
    requires p < |pattern| && pattern[p] == STAR && v <= k <= |value|
    requires Accepts(pattern[p..], value[k..])
    ensures Accepts(pattern[p..], value[v..])
  {
    hide Accepts;
    var j := StarGoesOn(pattern, value, p, k);
    StarAbsorbs(pattern, value, p, v, j);
  }

  lemma AcceptsAfterStar(pattern: Str, value: Str, p: nat, v: nat)
    requires p < |pattern| && pattern[p] == STAR && v <= |value|
    requires Accepts(pattern[p..], value[v..])
    ensures Accepts(pattern[p + 1..], value[v..]) || Alternative(pattern, value, p, v)
  {
    assert pattern[p..][1..] == pattern[p + 1..];
    var j :| 0 <= j <= |value[v..]| && Accepts(pattern[p + 1..], value[v..][j..]);
    assert value[v..][j..] == value[v + j..];
    if j > 0 { assert v < v + j <= |value|; }
  }

  /** Without a wildcard in the pattern the loop compares position by position. */
  lemma {:induction false} RunLiteral(pattern: Str, value: Str, p: nat)
    requires p <= |pattern| && p <= |value| && STAR !in pattern
    requires Accepts(pattern[p..], value[p..])
    ensures Run(pattern, value, p, p, -1, 0)
    decreases |pattern| - p
  {
    if p < |value| {
      assert pattern[p..][1..] == pattern[p + 1..] && value[p..][1..] == value[p + 1..];
      RunLiteral(pattern, value, p + 1);
    } else {
      assert value[p..] == [];
      StarsAcceptEmpty(pattern, p);
    }
  }

  lemma AnswerComplete(pattern: Str, value: Str)
    requires STAR !in value || STAR !in pattern
    ensures Answer(pattern, value) <==> Accepts(pattern, value)
  {
    AnswerSound(pattern, value);
    if Accepts(pattern, value) {
      assert pattern[0..] == pattern && value[0..] == value;
      if STAR !in value {
        RunComplete(pattern, value, 0, 0, -1, 0);
      } else {
        RunLiteral(pattern, value, 0);
      }
    }
  }

  // ----- and exactly then

  function Questions(n: nat): (s: Str)
    ensures |s| == n && forall i :: 0 <= i < n ==> s[i] == QUESTION
  {
    seq(n, i => QUESTION)
  }

  lemma {:induction false} QuestionsAccept(n: nat, value: Str)
    requires |value| == n
    ensures Accepts(Questions(n), value)
  {
    if n > 0 {
      assert Questions(n)[1..] == Questions(n - 1);
      QuestionsAccept(n - 1, value[1..]);
    }
  }

  /** For a value holding `*` at position i, this pattern should match (its wildcard may be empty)
      but the loop spends the wildcard on the literal `*` and runs out of value. */
  function Spoiler(value: Str, i: nat): Str
    requires i < |value|
  {
    Questions(i) + [STAR] + Questions(|value| - i)
  }

  lemma {:induction false} SpoilerAccepted(value: Str, i: nat, from: nat)
    requires i < |value| && from <= i
    ensures Accepts(Spoiler(value, i)[from..], value[from..])
    decreases i - from
  {
    var s := Spoiler(value, i);
    if from == i {
      assert s[i..][1..] == Questions(|value| - i);
      QuestionsAccept(|value| - i, value[i..]);
      assert value[i..][0..] == value[i..];
    } else {
      SpoilerAccepted(value, i, from + 1);
      assert s[from..][1..] == s[from + 1..] && value[from..][1..] == value[from + 1..];
    }
  }

  lemma {:induction false} SpoilerRejected(value: Str, i: nat, at: nat)
    requires i < |value| && at <= |value| && value[i] == STAR
    ensures !Run(Spoiler(value, i), value, at, at, -1, 0)
    decreases |value| - at
  {
    var s := Spoiler(value, i);
    if at < |value| {
      assert s[at] == QUESTION || s[at] == value[at];
      SpoilerRejected(value, i, at + 1);
    } else {
      assert s[at] == QUESTION;
    }
  }

  /** glob_match gives the documented answer for every pattern exactly on the values without `*`. */
  lemma ValueIsSafeIffStarFree(value: Str)
    ensures (forall pattern :: Answer(pattern, value) == Accepts(pattern, value)) <==> STAR !in value
  {
    if STAR in value {
      var i :| 0 <= i < |value| && value[i] == STAR;
      var s := Spoiler(value, i);
      SpoilerAccepted(value, i, 0);
      SpoilerRejected(value, i, 0);
      assert s[0..] == s && value[0..] == value;
      assert Answer(s, value) != Accepts(s, value);
    } else {
      forall pattern ensures Answer(pattern, value) == Accepts(pattern, value) {
        AnswerComplete(pattern, value);
      }
    }
  }

  // ----- KEYS

  datatype Route = Everything | Exact | Prefix(prefix: Str) | Suffix(suffix: Str) | Inside(part: Str) | General

  predicate Special(c: byte) { c == STAR || c == QUESTION || c == BRACKET }

  predicate SpecialFree(s: Str) { forall i :: 0 <= i < |s| ==> !Special(s[i]) }

  /** Which of the branches of Store::keys a pattern takes. */
  function RouteOf(pattern: Str): Route {
    if pattern == [STAR] then Everything
    else if SpecialFree(pattern) then Exact
    else
      var n := |pattern|;
      var front, back := pattern[0], pattern[n - 1];
      if back == STAR && front != STAR && SpecialFree(pattern[..n - 1]) then Prefix(pattern[..n - 1])
      else if front == STAR && back != STAR && SpecialFree(pattern[1..]) then Suffix(pattern[1..])
      else if front == STAR && back == STAR && n > 2 && SpecialFree(pattern[1..n - 1]) then Inside(pattern[1..n - 1])
      else General
  }

  predicate StartsWith(s: Str, prefix: Str) { |prefix| <= |s| && s[..|prefix|] == prefix }

  predicate EndsWith(s: Str, suffix: Str) { |suffix| <= |s| && s[|s| - |suffix|..] == suffix }

  predicate Contains(s: Str, part: Str) {
    exists k :: 0 <= k <= |s| && StartsWith(s[k..], part)
  }

  /** The test each branch of Store::keys applies to a live key. */
  ghost predicate RouteAccepts(pattern: Str, key: Str) {
    match RouteOf(pattern)
    case Everything => true
    case Exact => key == pattern
    case Prefix(prefix) => StartsWith(key, prefix)
    case Suffix(suffix) => EndsWith(key, suffix)
    case Inside(part) => Contains(key, part)
    case General => Answer(pattern, key)
  }

  /** The test itself. */
  method MatchRoute(pattern: Str, key: Str) returns (matched: bool)
    ensures matched == RouteAccepts(pattern, key)
  {
    match RouteOf(pattern) {
      case Everything => { matched := true; }
      case Exact => { matched := key == pattern; }
      case Prefix(prefix) => { matched := StartsWith(key, prefix); }
      case Suffix(suffix) => { matched := EndsWith(key, suffix); }
      case Inside(part) => { matched := Contains(key, part); }
      case General => { matched := GlobMatch(pattern, key); }
    }
  }

  lemma {:induction false} LiteralAccepts(s: Str, rest: Str, value: Str)
    requires SpecialFree(s)
    ensures Accepts(s + rest, value) <==> StartsWith(value, s) && Accepts(rest, value[|s|..])
    decreases |s|
  {
    if s == [] {
      assert s + rest == rest && value[0..] == value;
    } else {
      var t := s + rest;
      assert Special(STAR) && Special(QUESTION) && !Special(s[0]);
      assert t[1..] == s[1..] + rest;
      if value != [] && t[0] == value[0] {
        LiteralAccepts(s[1..], rest, value[1..]);
        if |s| <= |value| {
          assert value[1..][|s| - 1..] == value[|s|..];
          assert value[..|s|] == [value[0]] + value[1..][..|s| - 1] && s == [s[0]] + s[1..];
        }
      }
    }
  }

  lemma StarAcceptsAll(value: Str)
    ensures Accepts([STAR], value)
  {
    assert [STAR][1..] == [] && value[|value|..] == [];
  }

  /** Every fast path of KEYS keeps exactly the keys the documented glob meaning accepts, whatever
      bytes the keys hold; the general path does for keys without `*` and for patterns without. */
  lemma RouteIsGlob(pattern: Str, key: Str)
    requires RouteOf(pattern).General? ==> STAR !in key || STAR !in pattern
    ensures RouteAccepts(pattern, key) <==> Accepts(pattern, key)
  {
    var n := |pattern|;
    var none: Str := [];
    match RouteOf(pattern)
    case Everything => StarAcceptsAll(key);
    case Exact =>
      LiteralAccepts(pattern, none, key);
      assert pattern + none == pattern;
    case Prefix(prefix) =>
      assert pattern == prefix + [STAR];
      LiteralAccepts(prefix, [STAR], key);
      if StartsWith(key, prefix) { StarAcceptsAll(key[|prefix|..]); }
    case Suffix(suffix) =>
      forall k | 0 <= k <= |key|
        ensures Accepts(suffix, key[k..]) <==> key[k..] == suffix
      {
        LiteralAccepts(suffix, none, key[k..]);
        assert suffix + none == suffix;
      }
      if EndsWith(key, suffix) { assert Accepts(suffix, key[|key| - |suffix|..]); }
    case Inside(part) =>
      assert pattern[1..] == part + [STAR];
      forall k | 0 <= k <= |key|
        ensures Accepts(part + [STAR], key[k..]) <==> StartsWith(key[k..], part)
      {
        LiteralAccepts(part, [STAR], key[k..]);
        if StartsWith(key[k..], part) { StarAcceptsAll(key[k..][|part|..]); }
      }
    case General => AnswerComplete(pattern, key);
  }

  /** The general path still never returns a key the documented meaning refuses. */
  lemma RouteSound(pattern: Str, key: Str)
    requires RouteAccepts(pattern, key)
    ensures Accepts(pattern, key)
  {
    if RouteOf(pattern).General? { AnswerSound(pattern, key); } else { RouteIsGlob(pattern, key); }
  }
}
