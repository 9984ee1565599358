/** The RESP2 printers and the command parser of resp.hpp. */
module Resp {
  import opened Bytes

  const DOLLAR: byte := 36
  const ASTERISK: byte := 42

  type Command = seq<Str>

  datatype Parse = Success(args: Command, consumed: nat) | Incomplete | Error

  // ----- printing

  function BulkString(v: Str): Str { [DOLLAR] + Digits(|v|) + CRLF + v + CRLF }

  function ArrayHeader(n: nat): Str { [ASTERISK] + Digits(n) + CRLF }

  function Bulks(items: Command): Str {
    if items == [] then [] else BulkString(items[0]) + Bulks(items[1..])
  }

  /** The RESP2 array of bulk strings that stands for a command. */
  function Print(items: Command): Str { ArrayHeader(|items|) + Bulks(items) }

  /** Resp::array, resp.hpp. */
  method Array(items: Command) returns (res: Str)
    ensures res == Print(items)
  {
    res := ArrayHeader(|items|);
    var i := 0;
    assert items[0..] == items;
    while i < |items|
      invariant 0 <= i <= |items|
      invariant res + Bulks(items[i..]) == Print(items)
    {
      assert items[i..][1..] == items[i + 1..];
      assert res + Bulks(items[i..]) == (res + BulkString(items[i])) + Bulks(items[i + 1..]);
      res := res + BulkString(items[i]);
      i := i + 1;
    }
  }

  // ----- parsing

  predicate CrlfAt(b: Str, i: nat) { i + 1 < |b| && b[i] == CR && b[i + 1] == LF }

  /** std::string_view::find("\r\n", from). */
  function FindCrlf(b: Str, from: nat): (r: Option<nat>)
    ensures r.Some? ==> from <= r.value && CrlfAt(b, r.value)
    ensures forall i :: from <= i && CrlfAt(b, i) ==> r.Some? && r.value <= i
    decreases |b| - from
  {
    if from + 1 >= |b| then None
    else if CrlfAt(b, from) then Some(from)
    else FindCrlf(b, from + 1)
  }

  /** One turn of the loop of parse_resp_array: a bulk string at position `cur`. */
  datatype Bulk = Item(value: Str, next: nat) | Short | Bad

  function ParseBulk(b: Str, cur: nat): (r: Bulk)
    ensures r.Item? ==> cur < r.next <= |b|
  {
    if cur >= |b| then Short
    else if b[cur] != DOLLAR then Bad
    else match FindCrlf(b, cur)
      case None => Short
      case Some(crlf) =>
        match FromChars(b[cur + 1..crlf])
        case None => Bad
        case Some(len) =>
          if len < 0 then Item([], crlf + 2)
          else if |b| < crlf + 2 + len + 2 then Short
          else if !CrlfAt(b, crlf + 2 + len) then Bad
          else Item(b[crlf + 2..crlf + 2 + len], crlf + 2 + len + 2)
  }

  /** The loop of parse_resp_array: `count` more bulk strings from position `cur`. */
  function ParseBulks(b: Str, cur: nat, count: nat, args: Command): (r: Parse)
    ensures r.Success? ==> cur <= r.consumed && (cur <= |b| ==> r.consumed <= |b|)
    decreases count
  {
    if count == 0 then Success(args, cur)
    else match ParseBulk(b, cur)
      case Short => Incomplete
      case Bad => Error
      case Item(v, next) => ParseBulks(b, next, count - 1, args + [v])
  }

  function ParseArray(b: Str): (r: Parse)
    requires b != [] && b[0] == ASTERISK
    ensures r.Success? ==> 0 < r.consumed <= |b|
  {
    match FindCrlf(b, 0)
    case None => Incomplete
    case Some(pos) =>
      match FromChars(b[1..pos])
      case None => Error
      case Some(count) =>
        if count < 0 then Success([], pos + 2) else ParseBulks(b, pos + 2, count, [])
  }

  /** The body of the loop of parse_resp_array. */
  method NextBulk(b: Str, current: nat) returns (r: Bulk)
    ensures r == ParseBulk(b, current)
  {
    if current >= |b| { return Short; }
    if b[current] != DOLLAR { return Bad; }
    var crlf := FindCrlf(b, current);
    if crlf.None? { return Short; }
    var len := FromChars(b[current + 1..crlf.value]);
    if len.None? { return Bad; }
    if len.value < 0 { return Item([], crlf.value + 2); }
    var start := crlf.value + 2;
    var end := start + len.value;
    if |b| < end + 2 { return Short; }
    if b[end] != CR || b[end + 1] != LF { return Bad; }
    r := Item(b[start..end], end + 2);
  }

  /** parse_resp_array, resp.hpp. */
  method ParseRespArray(b: Str) returns (r: Parse)
    requires b != [] && b[0] == ASTERISK
    ensures r == ParseArray(b)
  {
    hide FindCrlf, FromChars, ParseBulk;
    var pos := FindCrlf(b, 0);
    if pos.None? { return Incomplete; }
    var count := FromChars(b[1..pos.value]);
    if count.None? { return Error; }
    if count.value < 0 { return Success([], pos.value + 2); }
    var current: nat := pos.value + 2;
    var args: Command := [];
    var left: nat := count.value;
    while left > 0
      invariant ParseBulks(b, current, left, args) == ParseArray(b)
      decreases left
    {
      var one := NextBulk(b, current);
      match one
      case Short => return Incomplete;
      case Bad => return Error;
      case Item(v, next) => args, current := args + [v], next;
      left := left - 1;
    }
    r := Success(args, current);
  }

  // ----- the inline form

  predicate IsSpace(c: byte) { c == 32 || 9 <= c <= 13 }

  function FindLf(b: Str, from: nat): (r: Option<nat>)
    ensures r.Some? ==> from <= r.value < |b|
    decreases |b| - from
  {
    if from >= |b| then None else if b[from] == LF then Some(from) else FindLf(b, from + 1)
  }

  function SkipSpaces(line: Str, i: nat): (j: nat)
    requires i <= |line|
    ensures i <= j <= |line| && (j < |line| ==> !IsSpace(line[j]))
    decreases |line| - i
  {
    if i < |line| && IsSpace(line[i]) then SkipSpaces(line, i + 1) else i
  }

  function WordEnd(line: Str, i: nat): (j: nat)
    requires i <= |line|
    ensures i <= j <= |line|
    ensures i < |line| && !IsSpace(line[i]) ==> i < j
    decreases |line| - i
  {
    if i < |line| && !IsSpace(line[i]) then WordEnd(line, i + 1) else i
  }

  function QuoteEnd(line: Str, i: nat, quote: byte): (j: nat)
    requires i <= |line|
    ensures i <= j <= |line|
    decreases |line| - i
  {
    if i >= |line| || line[i] == quote then i
    else if line[i] == 92 && i + 1 < |line| then QuoteEnd(line, i + 2, quote)
    else QuoteEnd(line, i + 1, quote)
  }

  function Unescape(s: Str): Str {
    if s == [] then []
    else if s[0] == 92 && |s| > 1 then [s[1]] + Unescape(s[2..])
    else [s[0]] + Unescape(s[1..])
  }

  function Words(line: Str, from: nat): Command
    requires from <= |line|
    decreases |line| - from
  {
    var i := SkipSpaces(line, from);
    if i == |line| then []
    else if line[i] == 34 || line[i] == 39 then
      var end := QuoteEnd(line, i + 1, line[i]);
      [Unescape(line[i + 1..end])] + Words(line, if end < |line| then end + 1 else end)
    else
      var end := WordEnd(line, i);
      [line[i..end]] + Words(line, end)
  }

  /** parse_inline_command, resp.hpp. */
  function ParseInline(b: Str): (r: Parse)
    ensures r.Success? ==> 0 < r.consumed <= |b|
  {
    match FindCrlf(b, 0)
    case Some(end) => Success(Words(b[..end], 0), end + 2)
    case None =>
      match FindLf(b, 0)
      case Some(end) => Success(Words(b[..end], 0), end + 1)
      case None => Incomplete
  }

  /** parse_command, resp.hpp. */
  function ParseCommand(b: Str): (r: Parse)
    ensures r.Success? ==> 0 < r.consumed <= |b|
  {
    if b == [] then Incomplete
    else if b[0] == ASTERISK then ParseArray(b)
    else ParseInline(b)
  }

  method Parser(b: Str) returns (r: Parse)
    ensures r == ParseCommand(b)
  {
    if b == [] { return Incomplete; }
    if b[0] == ASTERISK { r := ParseRespArray(b); } else { r := ParseInline(b); }
  }

  // ----- a verdict never changes when more bytes arrive

  lemma {:induction false} FindCrlfStable(b: Str, ext: Str, from: nat)
    requires FindCrlf(b, from).Some?
    ensures FindCrlf(b + ext, from) == FindCrlf(b, from)
  {
    var i := FindCrlf(b, from).value;
    assert CrlfAt(b + ext, i);
    var j := FindCrlf(b + ext, from).value;
    assert CrlfAt(b, j);
  }

  lemma SliceKept(b: Str, ext: Str, i: nat, j: nat)
    requires i <= j <= |b|
    ensures (b + ext)[i..j] == b[i..j]
  {
  }

  lemma ParseBulkStable(b: Str, ext: Str, cur: nat)
    requires !ParseBulk(b, cur).Short?
    ensures ParseBulk(b + ext, cur) == ParseBulk(b, cur)
  {
    hide FindCrlf, FromChars;
    if b[cur] == DOLLAR {
      FindCrlfStable(b, ext, cur);
      var crlf := FindCrlf(b, cur).value;
      SliceKept(b, ext, cur + 1, crlf);
      var len := FromChars(b[cur + 1..crlf]);
      if len.Some? && len.value >= 0 {
        var end := crlf + 2 + len.value;
        SliceKept(b, ext, crlf + 2, end);
        assert CrlfAt(b + ext, end) == CrlfAt(b, end);
      }
    }
  }

  lemma {:induction false} ParseBulksStable(b: Str, ext: Str, cur: nat, count: nat, args: Command)
    requires !ParseBulks(b, cur, count, args).Incomplete?
    ensures ParseBulks(b + ext, cur, count, args) == ParseBulks(b, cur, count, args)
    decreases count
  {
    if count > 0 {
      ParseBulkStable(b, ext, cur);
      var one := ParseBulk(b, cur);
      if one.Item? { ParseBulksStable(b, ext, one.next, count - 1, args + [one.value]); }
    }
  }

  /** Success and Error on an array command are final: no continuation of the stream changes them. */
  lemma ParseStable(b: Str, ext: Str)
    requires b != [] && b[0] == ASTERISK && !ParseArray(b).Incomplete?
    ensures ParseCommand(b + ext) == ParseCommand(b)
  {
    FindCrlfStable(b, ext, 0);
    var pos := FindCrlf(b, 0).value;
    assert (b + ext)[1..pos] == b[1..pos];
    var count := FromChars(b[1..pos]);
    if count.Some? && count.value >= 0 {
      ParseBulksStable(b, ext, pos + 2, count.value, []);
    }
  }

  /** A complete command is recognised from its own bytes. */
  lemma SuccessLocal(b: Str, n: nat)
    requires b != [] && b[0] == ASTERISK && ParseCommand(b).Success? && ParseCommand(b).consumed <= n <= |b|
    ensures ParseCommand(b[..n]) == ParseCommand(b)
  {
    var t := b[..n];
    var pos := FindCrlf(b, 0).value;
    assert b[1..pos + 2][..pos - 1] == b[1..pos];
    FindCrlfLocal(b, n, 0);
    assert t[1..pos] == b[1..pos];
    var count := FromChars(b[1..pos]).value;
    if count >= 0 { ParseBulksLocal(b, n, pos + 2, count, []); }
  }

  lemma FindCrlfLocal(b: Str, n: nat, from: nat)
    requires n <= |b| && FindCrlf(b, from).Some? && FindCrlf(b, from).value + 2 <= n
    ensures FindCrlf(b[..n], from) == FindCrlf(b, from)
  {
    var i := FindCrlf(b, from).value;
    assert CrlfAt(b[..n], i);
    assert CrlfAt(b, FindCrlf(b[..n], from).value);
  }

  lemma ParseBulkLocal(b: Str, n: nat, cur: nat)
    requires n <= |b| && ParseBulk(b, cur).Item? && ParseBulk(b, cur).next <= n
    ensures ParseBulk(b[..n], cur) == ParseBulk(b, cur)
  {
    hide FindCrlf, FromChars;
    FindCrlfLocal(b, n, cur);
    var crlf := FindCrlf(b, cur).value;
    assert b[..n][cur + 1..crlf] == b[cur + 1..crlf];
    var len := FromChars(b[cur + 1..crlf]).value;
    if len >= 0 {
      var end := crlf + 2 + len;
      assert b[..n][crlf + 2..end] == b[crlf + 2..end];
      assert CrlfAt(b[..n], end) == CrlfAt(b, end);
    }
  }

  lemma {:induction false} ParseBulksLocal(b: Str, n: nat, cur: nat, count: nat, args: Command)
    requires n <= |b| && ParseBulks(b, cur, count, args).Success? && ParseBulks(b, cur, count, args).consumed <= n
    ensures ParseBulks(b[..n], cur, count, args) == ParseBulks(b, cur, count, args)
    decreases count
  {
    hide ParseBulk;
    if count > 0 {
      var one := ParseBulk(b, cur);
      ParseBulkLocal(b, n, cur);
      ParseBulksLocal(b, n, one.next, count - 1, args + [one.value]);
    }
  }

  /** The inline form has that guarantee exactly for a line closed by CRLF: one closed by a bare line
      feed is read differently once a CRLF arrives. */
  lemma InlineFinalIff(b: Str)
    requires b != [] && b[0] != ASTERISK && ParseCommand(b).Success?
    ensures (forall ext: Str :: ParseCommand(b + ext) == ParseCommand(b)) <==> FindCrlf(b, 0).Some?
  {
    hide Words;
    if FindCrlf(b, 0).Some? {
      forall ext: Str ensures ParseCommand(b + ext) == ParseCommand(b) {
        FindCrlfStable(b, ext, 0);
        var end := FindCrlf(b, 0).value;
        assert (b + ext)[..end] == b[..end];
      }
    } else {
      CrlfBehind(b);
      assert ParseCommand(b + CRLF).consumed == |b| + 2;
    }
  }

  lemma CrlfBehind(b: Str)
    requires FindCrlf(b, 0).None?
    ensures FindCrlf(b + CRLF, 0) == Some(|b|)
  {
    assert CrlfAt(b + CRLF, |b|);
    var j := FindCrlf(b + CRLF, 0).value;
    assert j + 1 < |b| ==> CrlfAt(b, j);
  }

  /** A complete command stays complete, in either form. */
  lemma SuccessStays(b: Str, ext: Str)
    requires ParseCommand(b).Success?
    ensures ParseCommand(b + ext).Success?
  {
    hide Words, ParseArray;
    if b[0] == ASTERISK {
      ParseStable(b, ext);
    } else if FindCrlf(b, 0).Some? {
      FindCrlfStable(b, ext, 0);
    } else {
      FindLfStays(b, ext, 0);
    }
  }

  lemma {:induction false} FindLfStays(b: Str, ext: Str, from: nat)
    requires FindLf(b, from).Some?
    ensures FindLf(b + ext, from) == FindLf(b, from)
    decreases |b| - from
  {
    if b[from] != LF { FindLfStays(b, ext, from + 1); }
  }

  // ----- printing then parsing

  predicate Sized(args: Command) {
    |args| <= INT64_MAX && forall i :: 0 <= i < |args| ==> |args[i]| <= INT64_MAX
  }

  /** A header of digits ends at its own CRLF: digits hold no carriage return. */
  lemma FindAfterDigits(b: Str, at: nat, n: nat)
    requires at + 1 + |Digits(n)| + 2 <= |b|
    requires b[at] != CR && b[at + 1..at + 1 + |Digits(n)|] == Digits(n)
    requires CrlfAt(b, at + 1 + |Digits(n)|)
    ensures FindCrlf(b, at) == Some(at + 1 + |Digits(n)|)
  {
    var end := at + 1 + |Digits(n)|;
    forall i | at <= i < end
      ensures !CrlfAt(b, i)
    {
      if i > at { assert b[i] == b[at + 1..end][i - (at + 1)] && IsDigit(b[i]); }
    }
  }

  lemma BulkLayout(v: Str)
    ensures var s, d := BulkString(v), Digits(|v|);
            && |s| == |d| + |v| + 5 && s[0] == DOLLAR && s[1..1 + |d|] == d
            && CrlfAt(s, 1 + |d|) && s[3 + |d|..3 + |d| + |v|] == v && CrlfAt(s, 3 + |d| + |v|)
  {
  }

  /** Parsing at a place where a printed bulk string stands reads it back. */
  lemma ParseBulkPrinted(b: Str, at: nat, v: Str)
    requires |v| <= INT64_MAX
    requires at + |BulkString(v)| <= |b| && b[at..at + |BulkString(v)|] == BulkString(v)
    ensures ParseBulk(b, at) == Item(v, at + |BulkString(v)|)
  {
    hide Digits, FromChars, FindCrlf, BulkString, ParseBulk, CrlfAt;
    var s, d := BulkString(v), Digits(|v|);
    BulkLayout(v);
    SliceOfSlice(b, at, |s|, 0, 1);
    SliceOfSlice(b, at, |s|, 1, 1 + |d|);
    SliceOfSlice(b, at, |s|, 3 + |d|, 3 + |d| + |v|);
    CrlfOfSlice(b, at, |s|, 1 + |d|);
    CrlfOfSlice(b, at, |s|, 3 + |d| + |v|);
    assert b[at] == b[at..at + 1][0] == s[0..1][0] == s[0];
    FindAfterDigits(b, at, |v|);
    FromCharsDigits(|v|);
    ParseBulkReads(b, at, at + 1 + |d|, |v|);
  }

  lemma CrlfOfSlice(b: Str, at: nat, n: nat, i: nat)
    requires at + n <= |b| && CrlfAt(b[at..at + n], i)
    ensures CrlfAt(b, at + i)
  {
  }

  lemma ParseBulkReads(b: Str, cur: nat, crlf: nat, len: nat)
    requires cur < crlf && crlf + 2 + len + 2 <= |b| && b[cur] == DOLLAR && FindCrlf(b, cur) == Some(crlf)
    requires FromChars(b[cur + 1..crlf]) == Some(len) && CrlfAt(b, crlf + 2 + len)
    ensures ParseBulk(b, cur) == Item(b[crlf + 2..crlf + 2 + len], crlf + 2 + len + 2)
  {
    hide FromChars, FindCrlf;
  }

  lemma SliceOfSlice(b: Str, at: nat, n: nat, i: nat, j: nat)
    requires at + n <= |b| && i <= j <= n
    ensures b[at..at + n][i..j] == b[at + i..at + j]
  {
    var x, y := b[at..at + n][i..j], b[at + i..at + j];
    assert forall k :: 0 <= k < |x| ==> x[k] == y[k];
  }

  lemma {:induction false} ParseBulksPrinted(b: Str, at: nat, items: Command, args: Command)
    requires Sized(items)
    requires at + |Bulks(items)| <= |b| && b[at..at + |Bulks(items)|] == Bulks(items)
    ensures ParseBulks(b, at, |items|, args) == Success(args + items, at + |Bulks(items)|)
    decreases |items|
  {
    hide Digits, FromChars, FindCrlf, BulkString, ParseBulk;
    if items == [] {
      assert args + items == args;
    } else {
      var s, t := BulkString(items[0]), Bulks(items[1..]);
      var w := b[at..at + |s + t|];
      assert w[..|s|] == s && w[|s|..] == t;
      assert b[at..at + |s|] == w[..|s|] && b[at + |s|..at + |s| + |t|] == w[|s|..];
      ParseBulkPrinted(b, at, items[0]);
      ParseBulksPrinted(b, at + |s|, items[1..], args + [items[0]]);
      assert args + [items[0]] + items[1..] == args + items;
    }
  }

  /** Parsing a printed command followed by anything gives the command back and consumes exactly
      what was printed. */
  lemma PrintParse(items: Command, rest: Str)
    requires Sized(items)
    ensures ParseCommand(Print(items) + rest) == Success(items, |Print(items)|)
  {
    hide Digits, FromChars, FindCrlf, BulkString, ParseBulks, Bulks;
    var b := Print(items) + rest;
    var d, t := Digits(|items|), Bulks(items);
    var pos := 1 + |d|;
    assert Print(items) == [ASTERISK] + d + CRLF + t;
    assert b[0] == ASTERISK && b[1..pos] == d && CrlfAt(b, pos);
    assert b[pos + 2..pos + 2 + |t|] == t;
    FindAfterDigits(b, 0, |items|);
    FromCharsDigits(|items|);
    ParseBulksPrinted(b, pos + 2, items, []);
    assert [] + items == items;
  }

  /** Every proper prefix of a printed command is reported Incomplete: nothing is dispatched early
      and nothing is refused. */
  lemma PrefixIncomplete(items: Command, n: nat)
    requires Sized(items) && n < |Print(items)|
    ensures ParseCommand(Print(items)[..n]) == Incomplete
  {
    var whole := Print(items);
    var b, ext := whole[..n], whole[n..];
    assert b + ext == whole && whole + [] == whole;
    PrintParse(items, []);
    if n > 0 {
      assert b[0] == ASTERISK;
      if !ParseArray(b).Incomplete? { ParseStable(b, ext); }
    }
  }

  /** Distinct commands have distinct texts, and no text is a proper prefix of another. */
  lemma PrintInjective(a: Command, b: Command, x: Str, y: Str)
    requires Sized(a) && Sized(b) && Print(a) + x == Print(b) + y
    ensures a == b && x == y
  {
    PrintParse(a, x);
    PrintParse(b, y);
    assert x == (Print(a) + x)[|Print(a)|..] && y == (Print(b) + y)[|Print(b)|..];
  }
}
