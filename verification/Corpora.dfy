/** Lines of text as words and word numbers. */
module Corpora {
  import opened Sorting
  import opened Probing
  import Vocabs

  const EndOfSentence: nat := 0

  predicate IsSpace(c: char) {
    c == ' ' || '\t' <= c <= '\r'
  }

  function SkipSpaces(line: string, p: nat): (q: nat)
    ensures p <= q && (p <= |line| ==> q <= |line|)
    ensures q < |line| ==> !IsSpace(line[q])
    ensures forall i | p <= i < q :: i < |line| && IsSpace(line[i])
    decreases |line| - p
  {
    if p < |line| && IsSpace(line[p]) then SkipSpaces(line, p + 1) else p
  }

  function SkipWord(line: string, p: nat): (q: nat)
    ensures p <= q && (p <= |line| ==> q <= |line|)
    ensures q < |line| ==> IsSpace(line[q])
    ensures forall i | p <= i < q :: i < |line| && !IsSpace(line[i])
    decreases |line| - p
  {
    if p < |line| && !IsSpace(line[p]) then SkipWord(line, p + 1) else p
  }

  /** The words from place p on. The space that ends a word is taken with it. */
  function Tokens(line: string, p: nat): seq<string>
    decreases |line| - p
  {
    if p >= |line| then []
    else
      var s := SkipSpaces(line, p);
      var e := SkipWord(line, s);
      [line[s..e]] + Tokens(line, e + 1)
  }

  /** Words hold no spaces, and no character the line does not. */
  lemma {:induction false} TokenChars(line: string, p: nat, t: string, c: char)
    requires t in Tokens(line, p) && c in t
    ensures c in line && !IsSpace(c)
    decreases |line| - p
  {
    var s := SkipSpaces(line, p);
    var e := SkipWord(line, s);
    if t == line[s..e] {
      var i :| 0 <= i < |t| && t[i] == c;
      assert line[s + i] == c;
    } else {
      TokenChars(line, e + 1, t, c);
    }
  }

  /** One word is empty exactly in a line that ends in two spaces or is a single one. */
  lemma {:induction false} EmptyToken(line: string, p: nat)
    ensures "" in Tokens(line, p)
       <==> p < |line| && IsSpace(line[|line|-1]) && (p == |line| - 1 || IsSpace(line[|line|-2]))
    decreases |line| - p
  {
    hide IsSpace, Tokens, SkipSpaces, SkipWord;
    if p < |line| {
      var s := SkipSpaces(line, p);
      var e := SkipWord(line, s);
      TokensNext(line, p);
      EmptyToken(line, e + 1);
      assert "" in Tokens(line, p) <==> line[s..e] == "" || "" in Tokens(line, e + 1);
      if s < |line| {
        WordStarts(line, s);
        assert e == |line| || e == |line| - 1 ==> !IsSpace(line[e-1]);
      }
    } else {
      NoTokens(line, p);
    }
  }

  lemma WordStarts(line: string, s: nat)
    requires s < |line| && !IsSpace(line[s])
    ensures SkipWord(line, s) > s
  {
  }

  /** White space is the blank and the five control characters from tab to carriage return. */
  lemma SpacesAre(c: char)
    ensures IsSpace(c) <==> c == ' ' || c == '\t' || c == '\n' || c as int == 11 || c as int == 12 || c == '\r'
  {
  }

  ghost predicate IsWord(w: string) {
    w != "" && forall i | 0 <= i < |w| :: !IsSpace(w[i])
  }

  /** Words with single blanks between them. */
  function Spaced(words: seq<string>): string {
    if words == [] then "" else if |words| == 1 then words[0] else words[0] + " " + Spaced(words[1..])
  }

  lemma {:induction false} WordEnds(line: string, p: nat, e: nat)
    requires p <= e <= |line| && (e == |line| || IsSpace(line[e])) && forall i | p <= i < e :: !IsSpace(line[i])
    ensures SkipWord(line, p) == e
    decreases e - p
  {
    if p < e {
      WordEnds(line, p + 1, e);
    }
  }

  /** Words with single blanks between them are found again, behind whatever comes before. */
  lemma {:induction false} TokensSpaced(before: string, words: seq<string>)
    requires forall w | w in words :: IsWord(w)
    ensures Tokens(before + Spaced(words), |before|) == words
    decreases |words|
  {
    hide IsSpace, Tokens;
    var line, p := before + Spaced(words), |before|;
    if words == [] {
      NoTokens(line, p);
    } else {
      var w := words[0];
      assert w in words && words == [w] + words[1..];
      var e := p + |w|;
      assert line[p..e] == w by { assert Spaced(words)[..|w|] == w; }
      forall i | p <= i < e ensures !IsSpace(line[i]) {
        assert line[i] == w[i - p];
      }
      SpacesAre(' ');
      if |words| > 1 {
        assert line[e] == ' ';
      }
      WordEnds(line, p, e);
      assert SkipSpaces(line, p) == p;
      TokensNext(line, p);
      if |words| > 1 {
        assert line == (before + w + " ") + Spaced(words[1..]);
        TokensSpaced(before + w + " ", words[1..]);
      } else {
        NoTokens(line, e + 1);
      }
    }
  }

  // ---------- word numbers ----------

  function IndexIn(words: seq<string>, t: string): (i: nat)
    requires t in words
    ensures i < |words| && words[i] == t
  {
    if words[0] == t then 0 else 1 + IndexIn(words[1..], t)
  }

  /** The number of a word: a sentence start counts as a sentence end, and a word not there as the unknown one. */
  function Number(words: seq<string>, unk: int, t: string): int {
    if t == "<s>" then EndOfSentence else if t in words then IndexIn(words, t) else unk
  }

  function Numbers(words: seq<string>, unk: int, ts: seq<string>): (r: seq<int>)
    ensures |r| == |ts| && forall i | 0 <= i < |ts| :: r[i] == Number(words, unk, ts[i])
  {
    seq(|ts|, i requires 0 <= i < |ts| => Number(words, unk, ts[i]))
  }

  /** The vocabulary after a word is added to it, unless it is fixed. */
  function AddWord(words: seq<string>, fixed: bool, t: string): seq<string> {
    if t == "<s>" || fixed || t in words then words else words + [t]
  }

  function AddWords(words: seq<string>, fixed: bool, ts: seq<string>): seq<string> {
    if ts == [] then words else AddWord(AddWords(words, fixed, ts[..|ts|-1]), fixed, ts[|ts|-1])
  }

  /** No word of these is still to be added. */
  ghost predicate Settled(words: seq<string>, fixed: bool, ts: seq<string>) {
    fixed || forall i | 0 <= i < |ts| :: ts[i] == "<s>" || ts[i] in words
  }

  lemma {:induction false} IndexKept(words: seq<string>, more: seq<string>, t: string)
    requires words <= more && t in words
    ensures t in more && IndexIn(more, t) == IndexIn(words, t)
  {
    if words[0] != t {
      assert words[1..] <= more[1..];
      IndexKept(words[1..], more[1..], t);
    }
  }

  /** Settled numbers stay. */
  lemma NumbersKept(words: seq<string>, more: seq<string>, fixed: bool, unk: int, ts: seq<string>)
    requires Settled(words, fixed, ts) && words <= more && (fixed ==> more == words)
    ensures Settled(more, fixed, ts) && Numbers(more, unk, ts) == Numbers(words, unk, ts)
  {
    if !fixed {
      forall i | 0 <= i < |ts| ensures Number(more, unk, ts[i]) == Number(words, unk, ts[i]) {
        if ts[i] != "<s>" {
          IndexKept(words, more, ts[i]);
        }
      }
    }
  }

  lemma NumberAt(words: seq<string>, unk: int, t: string, i: nat)
    requires Distinct(words) && i < |words| && words[i] == t && t != "<s>"
    ensures Number(words, unk, t) == i
  {
  }

  /** The next word, and where the text goes on. */
  method NextToken(line: string, start: nat) returns (token: string, next: nat)
    requires start < |line|
    ensures start < next <= |line| && Tokens(line, start) == [token] + Tokens(line, next)
    ensures forall c | c in token :: c in line
  {
    hide IsSpace, Tokens;
    var p := start;
    while p < |line| && IsSpace(line[p])
      invariant start <= p <= |line| && SkipSpaces(line, p) == SkipSpaces(line, start)
    {
      p := p + 1;
    }
    var from := p;
    while p < |line| && !IsSpace(line[p])
      invariant from <= p <= |line| && SkipWord(line, p) == SkipWord(line, from)
    {
      p := p + 1;
    }
    token, next := line[from..p], if p < |line| then p + 1 else p;
    TokensNext(line, start);
    NoTokens(line, |line|);
    NoTokens(line, |line| + 1);
  }

  lemma TokensNext(line: string, p: nat)
    requires p < |line|
    ensures var s := SkipSpaces(line, p);
            var e := SkipWord(line, s);
            s <= e <= |line| && Tokens(line, p) == [line[s..e]] + Tokens(line, e + 1)
  {
    hide IsSpace;
  }

  /** Adds the words of a line to the vocabulary, as far as it is not fixed, and looks up their numbers. */
  method ReadLine(v: Vocabs.Vocab, line: string) returns (words: seq<int>)
    requires v.Valid() && v.Shaped() && Vocabs.Terminator !in line
    modifies v
    ensures v.Valid() && v.Shaped() && v.fixedVocab == old(v.fixedVocab) && v.unkIndex == old(v.unkIndex)
    ensures v.Words() == AddWords(old(v.Words()), v.fixedVocab, Tokens(line, 0)) && old(v.Words()) <= v.Words()
    ensures words == Numbers(v.Words(), v.unkIndex, Tokens(line, 0))
    ensures Settled(v.Words(), v.fixedVocab, Tokens(line, 0)) && (v.fixedVocab ==> v.Words() == old(v.Words()))
  {
    hide AddWords, Settled, Numbers, Tokens, Vocabs.Vocab.Valid, Vocabs.Vocab.Shaped, Vocabs.Vocab.Words;
    words := [];
    ghost var ts: seq<string>, first := [], v.Words();
    var p := 0;
    StartReading(first, v.fixedVocab);
    assert words == Numbers(first, v.unkIndex, ts);
    while p < |line|
      modifies v
      invariant v.Valid() && v.Shaped() && v.fixedVocab == old(v.fixedVocab) && v.unkIndex == old(v.unkIndex)
      invariant p <= |line| && ts + Tokens(line, p) == Tokens(line, 0)
      invariant v.Words() == AddWords(first, v.fixedVocab, ts) && first <= v.Words()
      invariant words == Numbers(v.Words(), v.unkIndex, ts) && Settled(v.Words(), v.fixedVocab, ts)
      invariant v.fixedVocab ==> v.Words() == first
      decreases |line| - p
    {
      var token, next := NextToken(line, p);
      ghost var before := v.Words();
      var index := v.Add(token);
      v.ValidShaped();
      v.WordsDistinct();
      ReadOn(before, v.Words(), v.fixedVocab, v.unkIndex, first, ts, token, index, words);
      words, ts, p := words + [index], ts + [token], next;
    }
    NoTokens(line, p);
    assert ts + [] == ts;
  }

  lemma NoTokens(line: string, p: nat)
    requires p >= |line|
    ensures Tokens(line, p) == []
  {
  }

  lemma StartReading(words: seq<string>, fixed: bool)
    ensures AddWords(words, fixed, []) == words && Settled(words, fixed, [])
  {
  }

  lemma ReadOn(before: seq<string>, after: seq<string>, fixed: bool, unk: int, first: seq<string>, ts: seq<string>, t: string, index: int,
               words: seq<int>)
    requires before == AddWords(first, fixed, ts) && Distinct(after)
    requires after == if t == "<s>" || fixed || t in before then before else before + [t]
    requires if t == "<s>" then index == EndOfSentence
             else if t in after then 0 <= index < |after| && after[index] == t
             else index == unk
    requires words == Numbers(before, unk, ts) && Settled(before, fixed, ts)
    ensures after == AddWords(first, fixed, ts + [t]) && before <= after && (fixed ==> after == before)
    ensures words + [index] == Numbers(after, unk, ts + [t]) && Settled(after, fixed, ts + [t])
  {
    hide Settled, Numbers, AddWords, Number;
    NumbersKept(before, after, fixed, unk, ts);
    AddWordsNext(first, fixed, ts, t);
    SettledNext(after, fixed, ts, t);
    NumberNow(after, unk, t, index);
    NumbersNext(after, unk, ts, t);
  }

  lemma AddWordsNext(words: seq<string>, fixed: bool, ts: seq<string>, t: string)
    ensures AddWords(words, fixed, ts + [t]) == AddWord(AddWords(words, fixed, ts), fixed, t)
  {
    hide AddWord;
    assert (ts + [t])[..|ts|] == ts;
  }

  lemma SettledNext(words: seq<string>, fixed: bool, ts: seq<string>, t: string)
    requires Settled(words, fixed, ts) && (fixed || t == "<s>" || t in words)
    ensures Settled(words, fixed, ts + [t])
  {
  }

  lemma NumbersNext(words: seq<string>, unk: int, ts: seq<string>, t: string)
    ensures Numbers(words, unk, ts + [t]) == Numbers(words, unk, ts) + [Number(words, unk, t)]
  {
    hide Number;
  }

  lemma NumberNow(words: seq<string>, unk: int, t: string, index: int)
    requires Distinct(words)
    requires if t == "<s>" then index == EndOfSentence
             else if t in words then 0 <= index < |words| && words[index] == t
             else index == unk
    ensures Number(words, unk, t) == index
  {
    if t in words && t != "<s>" {
      NumberAt(words, unk, t, index);
    }
  }

  // ---------- corpora ----------

  /** Document marks are passed over. */
  predicate IsMark(line: string) {
    "<DOC " <= line || line == "</DOC>"
  }

  /** The opening mark begins with five characters, the closing mark is the whole line. */
  lemma MarksAre(line: string)
    ensures IsMark(line) <==> (|line| >= 5 && line[..5] == "<DOC ") || line == ['<', '/', 'D', 'O', 'C', '>']
  {
  }

  /** The words of all lines that are counted. */
  function Sentences(lines: seq<string>): seq<seq<string>> {
    if lines == [] then []
    else
      var before, line := Sentences(lines[..|lines|-1]), lines[|lines|-1];
      if IsMark(line) then before else before + [Tokens(line, 0)]
  }

  function Collect(words: seq<string>, fixed: bool, sents: seq<seq<string>>): seq<string> {
    if sents == [] then words else AddWords(Collect(words, fixed, sents[..|sents|-1]), fixed, sents[|sents|-1])
  }

  function Numbered(words: seq<string>, unk: int, sents: seq<seq<string>>): (r: seq<seq<int>>)
    ensures |r| == |sents| && forall s | 0 <= s < |sents| :: r[s] == Numbers(words, unk, sents[s])
  {
    seq(|sents|, s requires 0 <= s < |sents| => Numbers(words, unk, sents[s]))
  }

  ghost predicate AllSettled(words: seq<string>, fixed: bool, sents: seq<seq<string>>) {
    forall s | 0 <= s < |sents| :: Settled(words, fixed, sents[s])
  }

  /** The numbers stay when another sentence is read. */
  lemma NumberedNext(words: seq<string>, more: seq<string>, fixed: bool, unk: int, sents: seq<seq<string>>, ts: seq<string>)
    requires AllSettled(words, fixed, sents) && words <= more && (fixed ==> more == words) && Settled(more, fixed, ts)
    ensures AllSettled(more, fixed, sents + [ts])
    ensures Numbered(more, unk, sents + [ts]) == Numbered(words, unk, sents) + [Numbers(more, unk, ts)]
  {
    forall s | 0 <= s < |sents| ensures Settled(more, fixed, sents[s]) && Numbers(more, unk, sents[s]) == Numbers(words, unk, sents[s]) {
      NumbersKept(words, more, fixed, unk, sents[s]);
    }
  }
}
