/** The array form of a command as a grammar, and the parser as its exact reader: what is accepted, as which
    words and up to where. */
module Grammar {
  import opened Bytes
  import Resp

  /** A bulk string: its length in decimal, and as many bytes; a negative length stands for an empty word. */
  ghost predicate BulkSpelled(s: Str, v: Str) {
    exists t: Str ::
      FromChars(t).Some?
      && if FromChars(t).value < 0 then v == [] && s == [36] + t + [13, 10]
         else FromChars(t).value == |v| && s == [36] + t + [13, 10] + v + [13, 10]
  }

  ghost predicate BulksSpelled(s: Str, args: Resp.Command)
    decreases |args|
  {
    if args == [] then s == []
    else exists k :: 0 <= k <= |s| && BulkSpelled(s[..k], args[0]) && BulksSpelled(s[k..], args[1..])
  }

  /** A command: how many bulk strings follow, and those; a negative number stands for none. */
  ghost predicate Spelled(s: Str, args: Resp.Command) {
    exists t: Str, body: Str ::
      FromChars(t).Some? && BulksSpelled(body, args) && s == [42] + t + [13, 10] + body
      && |args| == (if FromChars(t).value < 0 then 0 else FromChars(t).value)
  }

  // ----- what is spelled is read

  lemma NumberPlain(t: Str)
    requires FromChars(t).Some?
    ensures forall i :: 0 <= i < |t| ==> t[i] != 13
  {
    if t[0] == MINUS {
      assert forall i :: 0 < i < |t| ==> t[i] == t[1..][i - 1];
    }
  }

  /** A header ends at its own CRLF. */
  lemma HeaderEnds(b: Str, at: nat, mark: byte, t: Str)
    requires FromChars(t).Some? && mark != 13
    requires at + |t| + 3 <= |b| && b[at..at + |t| + 3] == [mark] + t + [13, 10]
    ensures b[at] == mark && b[at + 1..at + 1 + |t|] == t && Resp.FindCrlf(b, at) == Some(at + 1 + |t|)
  {
    hide FromChars, Resp.FindCrlf, Resp.CrlfAt;
    NumberPlain(t);
    var h := [mark] + t + [13, 10];
    var end := at + 1 + |t|;
    HeaderParts(mark, t);
    Resp.SliceOfSlice(b, at, |h|, 0, 1);
    Resp.SliceOfSlice(b, at, |h|, 1, 1 + |t|);
    Resp.CrlfOfSlice(b, at, |h|, 1 + |t|);
    assert b[at] == b[at..at + 1][0];
    OnlyThere(b, at, end, t);
  }

  lemma HeaderParts(mark: byte, t: Str)
    ensures var h := [mark] + t + [13, 10];
            h[0..1] == [mark] && h[1..1 + |t|] == t && Resp.CrlfAt(h, 1 + |t|) && |h| == |t| + 3
  {
  }

  lemma OnlyThere(b: Str, at: nat, end: nat, t: Str)
    requires at < end < |b| && b[at] != 13 && b[at + 1..end] == t && Resp.CrlfAt(b, end)
    requires forall i :: 0 <= i < |t| ==> t[i] != 13
    ensures Resp.FindCrlf(b, at) == Some(end)
  {
    hide Resp.FindCrlf;
    assert forall i :: at < i < end ==> b[i] == t[i - (at + 1)];
  }

  lemma BulkRead(b: Str, at: nat, s: Str, v: Str)
    requires BulkSpelled(s, v) && at + |s| <= |b| && b[at..at + |s|] == s
    ensures s != [] && Resp.ParseBulk(b, at) == Resp.Item(v, at + |s|)
  {
    hide FromChars, Resp.FindCrlf, Resp.CrlfAt, Resp.ParseBulk, Resp.BulkString;
    var t: Str :| FromChars(t).Some?
      && if FromChars(t).value < 0 then v == [] && s == [36] + t + [13, 10]
         else FromChars(t).value == |v| && s == [36] + t + [13, 10] + v + [13, 10];
    var n := |t| + 3;
    BulkParts(t, v);
    Resp.SliceOfSlice(b, at, |s|, 0, n);
    HeaderEnds(b, at, 36, t);
    if FromChars(t).value >= 0 {
      Resp.SliceOfSlice(b, at, |s|, n, n + |v|);
      Resp.CrlfOfSlice(b, at, |s|, n + |v|);
      Resp.ParseBulkReads(b, at, at + 1 + |t|, |v|);
    } else {
      EmptyRead(b, at, at + 1 + |t|);
    }
  }

  lemma BulkParts(t: Str, v: Str)
    ensures var h := [36] + t + [13, 10]; var s := h + v + [13, 10]; var n := |t| + 3;
            |s| == n + |v| + 2 && s[0..n] == h[0..n] == h && s[n..n + |v|] == v && Resp.CrlfAt(s, n + |v|)
  {
  }

  lemma EmptyRead(b: Str, at: nat, crlf: nat)
    requires at < crlf < |b| && b[at] == 36 && Resp.FindCrlf(b, at) == Some(crlf)
    requires FromChars(b[at + 1..crlf]).Some? && FromChars(b[at + 1..crlf]).value < 0
    ensures Resp.ParseBulk(b, at) == Resp.Item([], crlf + 2)
  {
    hide FromChars, Resp.FindCrlf;
  }

  lemma {:induction false} BulksRead(b: Str, at: nat, s: Str, args: Resp.Command, before: Resp.Command)
    requires BulksSpelled(s, args) && at + |s| <= |b| && b[at..at + |s|] == s
    ensures Resp.ParseBulks(b, at, |args|, before) == Resp.Success(before + args, at + |s|)
    decreases |args|
  {
    hide BulkSpelled, Resp.ParseBulk;
    if args == [] {
      assert before + args == before;
    } else {
      var k :| 0 <= k <= |s| && BulkSpelled(s[..k], args[0]) && BulksSpelled(s[k..], args[1..]);
      assert b[at..at + k] == s[..k] && b[at + k..at + k + |s[k..]|] == s[k..];
      BulkRead(b, at, s[..k], args[0]);
      BulksRead(b, at + k, s[k..], args[1..], before + [args[0]]);
      assert before + [args[0]] + args[1..] == before + args;
    }
  }

  // ----- what is read is spelled

  lemma BulkSound(b: Str, cur: nat)
    requires Resp.ParseBulk(b, cur).Item?
    ensures var r := Resp.ParseBulk(b, cur); BulkSpelled(b[cur..r.next], r.value)
  {
    hide FromChars, Resp.FindCrlf;
    var r := Resp.ParseBulk(b, cur);
    var crlf := Resp.FindCrlf(b, cur).value;
    assert crlf != cur;
    var t := b[cur + 1..crlf];
    HeaderSlice(b, cur, crlf);
    if FromChars(t).value >= 0 {
      HeaderEndsBefore(b, cur, crlf, r.next);
      assert b[cur..r.next] == [36] + t + [13, 10] + r.value + [13, 10];
    }
  }

  lemma HeaderSlice(b: Str, cur: nat, crlf: nat)
    requires cur < crlf && Resp.CrlfAt(b, crlf) && b[cur] == 36
    ensures b[cur..crlf + 2] == [36] + b[cur + 1..crlf] + [13, 10]
  {
  }

  lemma HeaderEndsBefore(b: Str, cur: nat, crlf: nat, next: nat)
    requires cur < crlf && crlf + 4 <= next <= |b| && Resp.CrlfAt(b, next - 2)
    ensures b[cur..next] == b[cur..crlf + 2] + b[crlf + 2..next - 2] + [13, 10]
  {
  }

  lemma {:induction false} BulksSound(b: Str, cur: nat, count: nat, before: Resp.Command) returns (args: Resp.Command)
    requires cur <= |b| && Resp.ParseBulks(b, cur, count, before).Success?
    ensures var r := Resp.ParseBulks(b, cur, count, before);
            r.args == before + args && |args| == count && BulksSpelled(b[cur..r.consumed], args)
    decreases count
  {
    hide BulkSpelled, Resp.ParseBulk;
    if count == 0 {
      args := [];
      assert b[cur..cur] == [];
    } else {
      var one := Resp.ParseBulk(b, cur);
      var n := Resp.ParseBulks(b, cur, count, before).consumed;
      var more := BulksSound(b, one.next, count - 1, before + [one.value]);
      BulkSound(b, cur);
      args := [one.value] + more;
      var s := b[cur..n];
      assert s[..one.next - cur] == b[cur..one.next] && s[one.next - cur..] == b[one.next..n];
      assert args[1..] == more && before + [one.value] + more == before + args;
    }
  }

  /** The parser accepts a prefix of an array buffer, as these words, exactly if it spells them. */
  lemma ArrayIff(b: Str, n: nat, args: Resp.Command)
    requires b != [] && b[0] == 42 && n <= |b|
    ensures Resp.ParseCommand(b) == Resp.Success(args, n) <==> Spelled(b[..n], args)
  {
    hide FromChars, Resp.FindCrlf, Resp.ParseBulks, BulksSpelled;
    if Spelled(b[..n], args) { SpelledRead(b, n, args); }
    if Resp.ParseCommand(b) == Resp.Success(args, n) { ReadSpelled(b, n, args); }
  }

  lemma SpelledRead(b: Str, n: nat, args: Resp.Command)
    requires b != [] && b[0] == 42 && n <= |b| && Spelled(b[..n], args)
    ensures Resp.ParseCommand(b) == Resp.Success(args, n)
  {
    hide FromChars, Resp.FindCrlf, Resp.ParseBulks, BulksSpelled;
    var t: Str, body: Str :|
      FromChars(t).Some? && BulksSpelled(body, args) && b[..n] == [42] + t + [13, 10] + body
      && |args| == (if FromChars(t).value < 0 then 0 else FromChars(t).value);
    var m := |t| + 3;
    assert b[0..m] == b[..n][..m] == [42] + t + [13, 10];
    HeaderEnds(b, 0, 42, t);
    assert b[m..m + |body|] == b[..n][m..] == body;
    BulksRead(b, m, body, args, []);
    assert [] + args == args;
    if FromChars(t).value < 0 { NoneSpelled(body, args); }
  }

  lemma NoneSpelled(body: Str, args: Resp.Command)
    requires BulksSpelled(body, args) && args == []
    ensures body == []
  {
  }

  lemma ReadSpelled(b: Str, n: nat, args: Resp.Command)
    requires b != [] && b[0] == 42 && n <= |b| && Resp.ParseCommand(b) == Resp.Success(args, n)
    ensures Spelled(b[..n], args)
  {
    hide FromChars, Resp.FindCrlf, Resp.ParseBulks, BulksSpelled;
    var pos := Resp.FindCrlf(b, 0).value;
    var t := b[1..pos];
    var count := FromChars(t).value;
    if count < 0 {
      NothingSpelled();
      assert b[..n] == [42] + t + [13, 10] + [];
    } else {
      var all := BulksSound(b, pos + 2, count, []);
      assert args == [] + all == all;
      var body := b[pos + 2..n];
      assert BulksSpelled(body, args);
      assert b[..n] == [42] + t + [13, 10] + body;
    }
  }

  lemma NothingSpelled()
    ensures BulksSpelled([], [])
  {
  }
}
