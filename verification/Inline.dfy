/** The inline form of a command: words as a person would type them, quoted or not, are read back. */
module Inline {
  import opened Bytes
  import Resp

  /** A word of a line, written as it is or in double quotes. */
  datatype Word = Word(text: Str, quoted: bool)

  /** Quotes and backslashes inside quotes stand behind a backslash. */
  function Escaped(s: Str): Str {
    if s == [] then [] else (if s[0] == 34 || s[0] == 92 then [92, s[0]] else [s[0]]) + Escaped(s[1..])
  }

  function Typed(w: Word): Str { if w.quoted then [34] + Escaped(w.text) + [34] else w.text }

  /** The words behind the first, each with a space in front. */
  function Rest(words: seq<Word>): Str {
    if words == [] then [] else [32] + Typed(words[0]) + Rest(words[1..])
  }

  function Line(words: seq<Word>): Str
    requires words != []
  {
    Typed(words[0]) + Rest(words[1..])
  }

  /** A bare word has no white space in it and does not start like a quoted one; a quoted word may hold
      anything but a carriage return. */
  predicate Typable(w: Word) {
    (forall i :: 0 <= i < |w.text| ==> w.text[i] != 13)
    && (!w.quoted ==>
          w.text != [] && w.text[0] != 34 && w.text[0] != 39
          && forall i :: 0 <= i < |w.text| ==> w.text[i] != 32 && !(9 <= w.text[i] <= 13))
  }

  function Texts(words: seq<Word>): Resp.Command { seq(|words|, i requires 0 <= i < |words| => words[i].text) }

  // ----- one word

  lemma {:induction false} UnescapeEscaped(s: Str)
    ensures Resp.Unescape(Escaped(s)) == s
  {
    if s != [] {
      var e := Escaped(s[1..]);
      UnescapeEscaped(s[1..]);
      if s[0] == 34 || s[0] == 92 {
        assert ([92, s[0]] + e)[2..] == e;
      } else {
        assert ([s[0]] + e)[1..] == e;
      }
    }
  }

  lemma {:induction false} QuoteEnds(line: Str, i: nat, s: Str, rest: Str)
    requires i <= |line| && line[i..] == Escaped(s) + ([34] + rest)
    ensures Resp.QuoteEnd(line, i, 34) == i + |Escaped(s)|
    decreases |s|
  {
    assert |line| - i == |Escaped(s)| + 1 + |rest|;
    if s == [] {
      assert line[i] == line[i..][0];
    } else {
      var e := Escaped(s[1..]);
      if s[0] == 34 || s[0] == 92 {
        assert line[i] == line[i..][0] && line[i + 1] == line[i..][1];
        assert line[i + 2..] == line[i..][2..] == e + ([34] + rest);
        QuoteEnds(line, i + 2, s[1..], rest);
      } else {
        assert line[i] == line[i..][0];
        assert line[i + 1..] == line[i..][1..] == e + ([34] + rest);
        QuoteEnds(line, i + 1, s[1..], rest);
      }
    }
  }

  lemma {:induction false} BareEnds(line: Str, i: nat, s: Str, rest: Str)
    requires i <= |line| && line[i..] == s + rest && (rest == [] || rest[0] == 32)
    requires forall j :: 0 <= j < |s| ==> s[j] != 32 && !(9 <= s[j] <= 13)
    ensures Resp.WordEnd(line, i) == i + |s|
    decreases |s|
  {
    if s == [] {
      if rest != [] { assert line[i] == line[i..][0]; }
    } else {
      assert line[i] == line[i..][0] == s[0];
      assert line[i + 1..] == line[i..][1..] == s[1..] + rest;
      BareEnds(line, i + 1, s[1..], rest);
    }
  }

  /** The reader takes one word and goes on behind it. */
  lemma WordRead(line: Str, i: nat, w: Word, rest: Str)
    requires Typable(w) && i <= |line| && line[i..] == Typed(w) + rest && (rest == [] || rest[0] == 32)
    ensures i + |Typed(w)| <= |line| && line[i + |Typed(w)|..] == rest
    ensures Resp.Words(line, i) == [w.text] + Resp.Words(line, i + |Typed(w)|)
  {
    hide Resp.QuoteEnd, Resp.WordEnd, Resp.Unescape, Resp.Words, Escaped;
    var n := |Typed(w)|;
    assert line[i + n..] == line[i..][n..] == rest;
    assert line[i] == line[i..][0] == Typed(w)[0];
    if w.quoted {
      QuotedRead(line, i, w, rest);
      QuotedUnfold(line, i);
    } else {
      BareEnds(line, i, w.text, rest);
      BareUnfold(line, i);
      assert line[i..i + n] == line[i..][..n] == w.text;
    }
  }

  lemma QuotedUnfold(line: Str, i: nat)
    requires i < |line| && line[i] == 34 && Resp.QuoteEnd(line, i + 1, 34) < |line|
    ensures var end := Resp.QuoteEnd(line, i + 1, 34);
            Resp.Words(line, i) == [Resp.Unescape(line[i + 1..end])] + Resp.Words(line, end + 1)
  {
    hide Resp.QuoteEnd, Resp.Unescape;
    assert Resp.SkipSpaces(line, i) == i;
  }

  lemma BareUnfold(line: Str, i: nat)
    requires i < |line| && !Resp.IsSpace(line[i]) && line[i] != 34 && line[i] != 39
    ensures var end := Resp.WordEnd(line, i); Resp.Words(line, i) == [line[i..end]] + Resp.Words(line, end)
  {
    hide Resp.WordEnd;
    assert Resp.SkipSpaces(line, i) == i;
  }

  lemma QuotedRead(line: Str, i: nat, w: Word, rest: Str)
    requires w.quoted && i < |line| && line[i..] == Typed(w) + rest
    ensures var end := Resp.QuoteEnd(line, i + 1, 34);
            end + 1 == i + |Typed(w)| && end < |line| && Resp.Unescape(line[i + 1..end]) == w.text
  {
    hide Resp.QuoteEnd, Resp.Unescape, Escaped;
    var e := Escaped(w.text);
    assert line[i + 1..] == line[i..][1..] == e + ([34] + rest);
    QuoteEnds(line, i + 1, w.text, rest);
    assert line[i + 1..i + 1 + |e|] == line[i + 1..][..|e|] == e;
    UnescapeEscaped(w.text);
  }

  // ----- the whole line

  lemma {:induction false} RestRead(line: Str, i: nat, words: seq<Word>)
    requires (forall k :: 0 <= k < |words| ==> Typable(words[k])) && i <= |line| && line[i..] == Rest(words)
    ensures Resp.Words(line, i) == Texts(words)
    decreases |words|
  {
    hide Typed, Typable, Resp.Words;
    if words == [] {
      NothingLeft(line, i);
    } else {
      var w, more := words[0], words[1..];
      assert line[i..] == [32] + (Typed(w) + Rest(more));
      assert line[i] == line[i..][0] == 32;
      assert line[i + 1..] == line[i..][1..] == Typed(w) + Rest(more);
      RestStarts(more);
      WordRead(line, i + 1, w, Rest(more));
      RestRead(line, i + 1 + |Typed(w)|, more);
      SpaceSkipped(line, i);
      assert Texts(words) == [w.text] + Texts(more);
    }
  }

  lemma NothingLeft(line: Str, i: nat)
    requires i == |line|
    ensures Resp.Words(line, i) == []
  {
  }

  lemma SpaceSkipped(line: Str, i: nat)
    requires i < |line| && line[i] == 32
    ensures Resp.Words(line, i) == Resp.Words(line, i + 1)
  {
    assert Resp.SkipSpaces(line, i) == Resp.SkipSpaces(line, i + 1);
  }

  lemma {:induction false} EscapedPlain(s: Str)
    requires forall i :: 0 <= i < |s| ==> s[i] != 13
    ensures forall i :: 0 <= i < |Escaped(s)| ==> Escaped(s)[i] != 13
  {
    if s != [] { EscapedPlain(s[1..]); }
  }

  lemma {:induction false} RestPlain(words: seq<Word>)
    requires forall k :: 0 <= k < |words| ==> Typable(words[k])
    ensures forall i :: 0 <= i < |Rest(words)| ==> Rest(words)[i] != 13
  {
    if words != [] {
      EscapedPlain(words[0].text);
      RestPlain(words[1..]);
    }
  }

  /** A typed line is read back word by word, whatever follows, if it does not start like an array. */
  lemma LineReadBack(words: seq<Word>, rest: Str)
    requires words != [] && (forall k :: 0 <= k < |words| ==> Typable(words[k]))
    requires !words[0].quoted ==> words[0].text == [] || words[0].text[0] != 42
    ensures Resp.ParseCommand(Line(words) + [13, 10] + rest) == Resp.Success(Texts(words), |Line(words)| + 2)
  {
    hide Resp.Words, Resp.FindCrlf, Typable, Line, Texts;
    var line := Line(words);
    FirstThere(words);
    LinePlain(words);
    CrlfThere(line, rest);
    LineWords(words);
    var b := line + [13, 10] + rest;
    assert b[..|line|] == line && b[0] == line[0];
  }

  lemma LinePlain(words: seq<Word>)
    requires words != [] && forall k :: 0 <= k < |words| ==> Typable(words[k])
    ensures forall i :: 0 <= i < |Line(words)| ==> Line(words)[i] != 13
  {
    hide Typable, Typed;
    RestPlain(words);
    assert Rest(words) == [32] + Line(words);
    assert forall i :: 0 <= i < |Line(words)| ==> Line(words)[i] == Rest(words)[i + 1];
  }

  lemma LineWords(words: seq<Word>)
    requires words != [] && forall k :: 0 <= k < |words| ==> Typable(words[k])
    ensures Resp.Words(Line(words), 0) == Texts(words)
  {
    hide Resp.Words, Typable, Typed, Rest;
    var line, w, more := Line(words), words[0], words[1..];
    assert line[0..] == line == Typed(w) + Rest(more);
    RestStarts(more);
    WordRead(line, 0, w, Rest(more));
    RestRead(line, |Typed(w)|, more);
    assert Texts(words) == [w.text] + Texts(more);
  }

  lemma FirstThere(words: seq<Word>)
    requires words != [] && Typable(words[0]) && (!words[0].quoted ==> words[0].text == [] || words[0].text[0] != 42)
    ensures Line(words) != [] && Line(words)[0] != 42
  {
  }

  lemma RestStarts(words: seq<Word>)
    ensures Rest(words) == [] || Rest(words)[0] == 32
  {
  }

  lemma CrlfThere(line: Str, rest: Str)
    requires forall i :: 0 <= i < |line| ==> line[i] != 13
    ensures Resp.FindCrlf(line + [13, 10] + rest, 0) == Some(|line|)
  {
    var b := line + [13, 10] + rest;
    assert Resp.CrlfAt(b, |line|);
    var j := Resp.FindCrlf(b, 0).value;
    assert forall i :: 0 <= i < |line| ==> b[i] == line[i];
  }

  // ----- what stands for nothing

  /** A negative length stands for an empty word, and a negative count for a command without words. */
  lemma NegativeRead(n: int, rest: Str)
    requires INT64_MIN <= n < 0
    ensures var b := [36] + SignedDigits(n) + [13, 10]; Resp.ParseBulk(b + rest, 0) == Resp.Item([], |b|)
    ensures var b := [42] + SignedDigits(n) + [13, 10]; Resp.ParseCommand(b + rest) == Resp.Success([], |b|)
  {
    hide Digits, FromChars, SignedDigits, Resp.FindCrlf, Resp.ParseBulks;
    var d := SignedDigits(n);
    assert forall i :: 0 <= i < |d| ==> d[i] != 13 by { MinusDigits(n); }
    FromCharsSigned(n);
    forall mark: byte | mark == 36 || mark == 42
      ensures var b := [mark] + d + [13, 10] + rest; b[1..1 + |d|] == d && Resp.FindCrlf(b, 0) == Some(1 + |d|)
    {
      assert ([mark] + d + [13, 10] + rest)[1..1 + |d|] == d;
      CrlfThere([mark] + d, rest);
    }
  }

  lemma MinusDigits(n: int)
    requires n < 0
    ensures forall i :: 0 <= i < |SignedDigits(n)| ==> SignedDigits(n)[i] != 13
  {
    var d := Digits(-n);
    assert forall i :: 0 <= i < |d| ==> IsDigit(d[i]);
    assert SignedDigits(n) == [45] + d;
  }
}
