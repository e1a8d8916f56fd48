/** Numbers spelled out in English words and read back. The printer goes through the decimal digits in groups of three,
    from the left; the reader goes through the words and keeps a pending number and what it has put aside. A number
    that was printed is read back as itself, so no two numbers print alike. */
module NumberWords {

  datatype Option<T> = None | Some(value: T)

  /** What a word does to the number read so far: multiply, then add. */
  datatype Effect = Effect(scale: nat, increment: nat)

  // ---------- decimal text ----------

  function Pow(b: nat, e: nat): (p: nat)
    ensures b > 0 ==> p > 0
  {
    if e == 0 then 1 else b * Pow(b, e - 1)
  }

  /** What a string of digits is worth. */
  function Value(ds: seq<nat>): nat {
    if ds == [] then 0 else 10 * Value(ds[..|ds|-1]) + ds[|ds|-1]
  }

  /** The decimal digits of n, without leading zeros but for zero itself. */
  function Digits(n: nat): (ds: seq<nat>)
    ensures |ds| > 0 && forall k | 0 <= k < |ds| :: ds[k] < 10
    ensures ds[0] == 0 <==> n == 0
  {
    if n < 10 then [n] else Digits(n / 10) + [n % 10]
  }

  lemma {:induction false} DigitsValue(n: nat)
    ensures Value(Digits(n)) == n
  {
    var ds := Digits(n);
    if n < 10 {
      assert ds[..0] == [];
    } else {
      DigitsValue(n / 10);
      assert ds[..|ds|-1] == Digits(n / 10);
    }
  }

  /** How many digits n has. */
  lemma {:induction false} DigitsLength(n: nat, k: nat)
    ensures |Digits(n)| <= k + 1 <==> n < 10 * Pow(10, k)
  {
    if n >= 10 {
      if k > 0 {
        DigitsLength(n / 10, k - 1);
      }
    } else {
      assert Pow(10, k) > 0;
    }
  }

  /** Padded with zeros in front. */
  function Zfill(ds: seq<nat>, width: nat): (r: seq<nat>)
    requires |ds| <= width && forall k | 0 <= k < |ds| :: ds[k] < 10
    ensures |r| == width && forall k | 0 <= k < |r| :: r[k] < 10
  {
    seq(width - |ds|, _ => 0) + ds
  }

  lemma {:induction false} ZeroValue(n: nat)
    ensures Value(seq(n, _ => 0)) == 0
  {
    if n > 0 {
      ZeroValue(n - 1);
      assert seq(n, _ => 0)[..n-1] == seq(n - 1, _ => 0);
    }
  }

  lemma {:induction false} ZfillValue(ds: seq<nat>, width: nat)
    requires |ds| <= width && forall k | 0 <= k < |ds| :: ds[k] < 10
    ensures Value(Zfill(ds, width)) == Value(ds)
  {
    if ds == [] {
      ZeroValue(width);
      assert Zfill(ds, width) == seq(width, _ => 0);
    } else {
      var front := ds[..|ds|-1];
      ZfillValue(front, width - 1);
      assert Zfill(ds, width)[..width-1] == Zfill(front, width - 1);
    }
  }

  function Str(n: nat): string {
    seq(|Digits(n)|, k requires 0 <= k < |Digits(n)| => '0' + Digits(n)[k] as char)
  }

  predicate DigitChar(c: char) {
    '0' <= c <= '9'
  }

  /** What a text of digits is worth. */
  function Decimal(s: string): nat
    requires forall k | 0 <= k < |s| :: DigitChar(s[k])
  {
    if s == [] then 0 else
      assert DigitChar(s[|s|-1]);
      10 * Decimal(s[..|s|-1]) + (s[|s|-1] - '0') as nat
  }

  /** The decimal text of n: digits worth n, the first of them zero for zero only. */
  lemma StrIsDecimal(n: nat)
    ensures |Str(n)| > 0 && forall k | 0 <= k < |Str(n)| :: DigitChar(Str(n)[k])
    ensures Decimal(Str(n)) == n && (Str(n)[0] == '0' <==> n == 0)
  {
    DigitsValue(n);
    DecimalValue(Str(n), Digits(n));
  }

  lemma {:induction false} DecimalValue(s: string, ds: seq<nat>)
    requires |s| == |ds| && forall k | 0 <= k < |ds| :: ds[k] < 10 && s[k] == '0' + ds[k] as char
    ensures (forall k | 0 <= k < |s| :: DigitChar(s[k])) && Decimal(s) == Value(ds)
  {
    if s != [] {
      DecimalValue(s[..|s|-1], ds[..|ds|-1]);
    }
  }

  // ---------- words and text ----------

  predicate Space(c: char) {
    c == ' ' || '\t' <= c <= '\r'
  }

  /** A word of small letters only. */
  predicate Plain(w: string) {
    |w| > 0 && forall k | 0 <= k < |w| :: 'a' <= w[k] <= 'z'
  }

  function Lower(s: string): (r: string)
    ensures |r| == |s|
  {
    seq(|s|, k requires 0 <= k < |s| => if 'A' <= s[k] <= 'Z' then s[k] - 'A' + 'a' else s[k])
  }

  lemma PlainLower(w: string)
    requires Plain(w)
    ensures Lower(w) == w
  {
  }

  function TokenLength(s: string): (n: nat)
    ensures n <= |s| && (n < |s| ==> Space(s[n])) && forall k | 0 <= k < n :: !Space(s[k])
  {
    if s == [] || Space(s[0]) then 0 else 1 + TokenLength(s[1..])
  }

  /** The words of a text, cut at white space. */
  function Split(s: string): seq<string>
    decreases |s|
  {
    if s == [] then []
    else if Space(s[0]) then Split(s[1..])
    else
      var n := TokenLength(s);
      [s[..n]] + Split(s[n..])
  }

  function Join(words: seq<string>): string {
    if words == [] then "" else if |words| == 1 then words[0] else words[0] + " " + Join(words[1..])
  }

  lemma {:induction false} TokenOf(w: string, rest: string)
    requires forall k | 0 <= k < |w| :: !Space(w[k])
    requires rest == [] || Space(rest[0])
    ensures TokenLength(w + rest) == |w|
  {
    var s := w + rest;
    if w != [] {
      assert s[1..] == w[1..] + rest;
      TokenOf(w[1..], rest);
    }
  }

  lemma SplitWord(w: string, rest: string)
    requires Plain(w) && (rest == [] || Space(rest[0]))
    ensures Split(w + rest) == [w] + Split(rest)
  {
    var s := w + rest;
    assert s[0] == w[0];
    TokenOf(w, rest);
    assert s[..|w|] == w && s[|w|..] == rest;
  }

  lemma SplitSpace(s: string)
    ensures Split(" " + s) == Split(s)
  {
    assert (" " + s)[1..] == s;
  }

  /** Words joined with spaces are found again. */
  lemma {:induction false} SplitJoin(words: seq<string>)
    requires forall w | w in words :: Plain(w)
    ensures Split(Join(words)) == words
  {
    hide Split, Plain;
    if words == [] {
      SplitNothing();
    } else {
      var w, more := words[0], words[1..];
      assert w in words && words == [w] + more;
      if more == [] {
        SplitNothing();
        SplitWord(w, "");
        assert w + "" == w;
      } else {
        SplitJoin(more);
        SplitWord(w, " " + Join(more));
        SplitSpace(Join(more));
        assert w + " " + Join(more) == w + (" " + Join(more));
      }
    }
  }

  lemma SplitNothing()
    ensures Split("") == []
  {
  }

  // ---------- the tables ----------

  function Units(): seq<string> {
    ["zero", "one", "two", "three", "four", "five", "six", "seven", "eight", "nine"]
  }

  function Teens(): seq<string> {
    ["", "eleven", "twelve", "thirteen", "fourteen", "fifteen", "sixteen", "seventeen", "eighteen", "nineteen"]
  }

  function Tens(): seq<string> {
    ["", "ten", "twenty", "thirty", "forty", "fifty", "sixty", "seventy", "eighty", "ninety"]
  }

  function Thousands(): seq<string> {
    ["", "thousand", "million", "billion", "trillion", "quadrillion", "quintillion", "sextillion", "septillion",
     "octillion", "nonillion", "decillion", "undecillion", "duodecillion", "tredecillion", "quattuordecillion",
     "quindecillion", "sexdecillion", "septendecillion", "octodecillion", "novemdecillion", "vigintillion"]
  }

  /** The reader's tables. */
  function KnownUnits(): seq<string> {
    ["zero", "one", "two", "three", "four", "five", "six", "seven", "eight", "nine", "ten", "eleven", "twelve",
     "thirteen", "fourteen", "fifteen", "sixteen", "seventeen", "eighteen", "nineteen"]
  }

  function KnownTens(): seq<string> {
    ["", "", "twenty", "thirty", "forty", "fifty", "sixty", "seventy", "eighty", "ninety"]
  }

  function Scales(): seq<string> {
    LowScales() + HighScales()
  }

  function LowScales(): seq<string> {
    ["hundred", "thousand", "million", "billion", "trillion", "quadrillion", "quintillion", "sextillion",
     "septillion", "octillion", "nonillion"]
  }

  function HighScales(): seq<string> {
    ["decillion", "undecillion", "duodecillion", "tredecillion", "quattuordecillion", "quindecillion", "sexdecillion",
     "septendecillion", "octodecillion", "novemdecillion", "vigintillion"]
  }

  /** The last place of a word in a table: a later entry of the dictionary replaces an earlier one. */
  function LastIndex(table: seq<string>, w: string): (i: nat)
    requires w in table
    ensures i < |table| && table[i] == w
  {
    if table[|table|-1] == w then |table| - 1 else LastIndex(table[..|table|-1], w)
  }

  /** What a word does; tables filled in later come first. */
  function Lookup(w: string): Option<Effect> {
    if w in Scales() then
      var k := LastIndex(Scales(), w);
      Some(Effect(if k == 0 then 100 else Pow(10, 3 * k), 0))
    else if w in KnownTens() then Some(Effect(1, 10 * LastIndex(KnownTens(), w)))
    else if w in KnownUnits() then Some(Effect(1, LastIndex(KnownUnits(), w)))
    else if w == "and" then Some(Effect(1, 0))
    else None
  }

  lemma UnitKnown(h: nat)
    requires h < 10
    ensures Lookup(Units()[h]) == Some(Effect(1, h)) && Plain(Units()[h]) && Units()[h] != "and"
  {
    assert KnownUnits()[h] == Units()[h];
    KnownUnit(h);
  }

  lemma TeenKnown(u: nat)
    requires 1 <= u < 10
    ensures Lookup(Teens()[u]) == Some(Effect(1, 10 + u)) && Plain(Teens()[u]) && Teens()[u] != "and"
  {
    assert KnownUnits()[10 + u] == Teens()[u];
    KnownUnit(10 + u);
  }

  /** Entries from a on are words, no two the same. */
  ghost predicate Words(table: seq<string>, a: nat) {
    && (forall i, j | 0 <= i < j < |table| && a <= j :: table[i] != table[j])
    && forall i | a <= i < |table| :: Plain(table[i]) && table[i] != "and"
  }

  ghost predicate Apart(t: seq<string>, u: seq<string>) {
    forall i, j | 0 <= i < |t| && 0 <= j < |u| :: t[i] != u[j]
  }

  lemma UnitWords()
    ensures Words(KnownUnits(), 0) && |KnownUnits()| == 20
  {
    hide Plain;
    UnitsPlain();
  }

  lemma UnitsPlain()
    ensures forall i | 0 <= i < |KnownUnits()| :: Plain(KnownUnits()[i])
  {
  }

  lemma TenWords()
    ensures Words(KnownTens(), 2) && |KnownTens()| == 10
  {
    hide Plain;
    TensPlain();
  }

  lemma TensPlain()
    ensures forall i | 2 <= i < |KnownTens()| :: Plain(KnownTens()[i])
  {
  }

  lemma ScaleWords()
    ensures forall i | 0 <= i < |Scales()| :: Plain(Scales()[i]) && Scales()[i] != "and"
    ensures |Scales()| == 22
  {
    hide Plain;
    var low, high := LowScales(), HighScales();
    LowPlain();
    HighPlain();
  }

  lemma LowPlain()
    ensures forall i | 0 <= i < |LowScales()| :: Plain(LowScales()[i])
  {
  }

  lemma HighPlain()
    ensures forall i | 0 <= i < |HighScales()| :: Plain(HighScales()[i])
  {
  }

  lemma ScalesDiffer()
    ensures forall i, j | 0 <= i < j < |Scales()| :: Scales()[i] != Scales()[j]
  {
  }

  lemma TablesApart()
    ensures Apart(KnownUnits(), Scales()) && Apart(KnownTens(), Scales()) && Apart(KnownUnits(), KnownTens())
  {
  }

  lemma KnownUnit(k: nat)
    requires k < 20
    ensures |KnownUnits()| == 20
    ensures Lookup(KnownUnits()[k]) == Some(Effect(1, k)) && Plain(KnownUnits()[k]) && KnownUnits()[k] != "and"
  {
    hide KnownUnits, KnownTens, Scales, LastIndex, Plain;
    UnitWords();
    TablesApart();
    var i := LastIndex(KnownUnits(), KnownUnits()[k]);
    assert i == k;
  }

  lemma KnownTen(k: nat)
    requires 2 <= k < 10
    ensures |KnownTens()| == 10
    ensures Lookup(KnownTens()[k]) == Some(Effect(1, 10 * k)) && Plain(KnownTens()[k]) && KnownTens()[k] != "and"
  {
    hide KnownUnits, KnownTens, Scales, LastIndex, Plain;
    TenWords();
    TablesApart();
    var i := LastIndex(KnownTens(), KnownTens()[k]);
    assert i == k;
  }

  /** Which numbers the words of the tables are. */
  lemma SmallWords()
    ensures Lookup("zero") == Some(Effect(1, 0)) && Lookup("one") == Some(Effect(1, 1)) && Lookup("two") == Some(Effect(1, 2))
    ensures Lookup("three") == Some(Effect(1, 3)) && Lookup("four") == Some(Effect(1, 4)) && Lookup("five") == Some(Effect(1, 5))
    ensures Lookup("six") == Some(Effect(1, 6)) && Lookup("seven") == Some(Effect(1, 7)) && Lookup("eight") == Some(Effect(1, 8))
    ensures Lookup("nine") == Some(Effect(1, 9))
  {
    hide Lookup, Plain;
    forall k | 0 <= k < 10 ensures |KnownUnits()| == 20 && Lookup(KnownUnits()[k]) == Some(Effect(1, k)) {
      KnownUnit(k);
    }
    var t := KnownUnits();
    assert t[0] == "zero" && t[1] == "one" && t[2] == "two" && t[3] == "three" && t[4] == "four";
    assert t[5] == "five" && t[6] == "six" && t[7] == "seven" && t[8] == "eight" && t[9] == "nine";
  }

  lemma TeenWords()
    ensures Lookup("ten") == Some(Effect(1, 10)) && Lookup("eleven") == Some(Effect(1, 11))
    ensures Lookup("twelve") == Some(Effect(1, 12)) && Lookup("thirteen") == Some(Effect(1, 13))
    ensures Lookup("fourteen") == Some(Effect(1, 14)) && Lookup("fifteen") == Some(Effect(1, 15))
    ensures Lookup("sixteen") == Some(Effect(1, 16)) && Lookup("seventeen") == Some(Effect(1, 17))
    ensures Lookup("eighteen") == Some(Effect(1, 18)) && Lookup("nineteen") == Some(Effect(1, 19))
  {
    hide Lookup, Plain;
    forall k | 10 <= k < 20 ensures |KnownUnits()| == 20 && Lookup(KnownUnits()[k]) == Some(Effect(1, k)) {
      KnownUnit(k);
    }
    var t := KnownUnits();
    assert t[10] == "ten" && t[11] == "eleven" && t[12] == "twelve" && t[13] == "thirteen" && t[14] == "fourteen";
    assert t[15] == "fifteen" && t[16] == "sixteen" && t[17] == "seventeen" && t[18] == "eighteen" && t[19] == "nineteen";
  }

  lemma TensWords()
    ensures Lookup("twenty") == Some(Effect(1, 20)) && Lookup("thirty") == Some(Effect(1, 30))
    ensures Lookup("forty") == Some(Effect(1, 40)) && Lookup("fifty") == Some(Effect(1, 50))
    ensures Lookup("sixty") == Some(Effect(1, 60)) && Lookup("seventy") == Some(Effect(1, 70))
    ensures Lookup("eighty") == Some(Effect(1, 80)) && Lookup("ninety") == Some(Effect(1, 90))
  {
    hide Lookup, Plain;
    forall k | 2 <= k < 10 ensures |KnownTens()| == 10 && Lookup(KnownTens()[k]) == Some(Effect(1, 10 * k)) {
      KnownTen(k);
    }
    var t := KnownTens();
    assert t[2] == "twenty" && t[3] == "thirty" && t[4] == "forty" && t[5] == "fifty" && t[6] == "sixty";
    assert t[7] == "seventy" && t[8] == "eighty" && t[9] == "ninety";
  }

  /** A hundred, and a thousand times more with every word from "thousand" on. */
  ghost predicate Scale(w: string, k: nat) {
    Lookup(w) == Some(Effect(if k == 0 then 100 else Pow(10, 3 * k), 0))
  }

  lemma ScalesWords()
    ensures Scale("hundred", 0) && Scale("thousand", 1) && Scale("million", 2) && Scale("billion", 3) && Scale("trillion", 4)
    ensures Scale("quadrillion", 5) && Scale("quintillion", 6) && Scale("sextillion", 7) && Scale("septillion", 8)
    ensures Scale("octillion", 9) && Scale("nonillion", 10) && Scale("decillion", 11) && Scale("undecillion", 12)
    ensures Scale("duodecillion", 13) && Scale("tredecillion", 14) && Scale("quattuordecillion", 15)
    ensures Scale("quindecillion", 16) && Scale("sexdecillion", 17) && Scale("septendecillion", 18)
    ensures Scale("octodecillion", 19) && Scale("novemdecillion", 20) && Scale("vigintillion", 21)
  {
    hide Scale, Lookup, Plain;
    forall k | 0 <= k < 22 ensures |Scales()| == 22 && Scale(Scales()[k], k) {
      ScaleIs(k);
    }
    var t := Scales();
    assert t[0] == "hundred" && t[1] == "thousand" && t[2] == "million" && t[3] == "billion" && t[4] == "trillion";
    assert t[5] == "quadrillion" && t[6] == "quintillion" && t[7] == "sextillion" && t[8] == "septillion";
    assert t[9] == "octillion" && t[10] == "nonillion" && t[11] == "decillion" && t[12] == "undecillion";
    assert t[13] == "duodecillion" && t[14] == "tredecillion" && t[15] == "quattuordecillion";
    assert t[16] == "quindecillion" && t[17] == "sexdecillion" && t[18] == "septendecillion";
    assert t[19] == "octodecillion" && t[20] == "novemdecillion" && t[21] == "vigintillion";
  }

  lemma ScaleIs(k: nat)
    requires k < 22
    ensures |Scales()| == 22 && Scale(Scales()[k], k)
  {
    hide Lookup, Scales, Plain, Pow;
    ScaleKnown(k);
  }

  lemma TenKnown(t: nat)
    requires 1 <= t < 10
    ensures Lookup(Tens()[t]) == Some(Effect(1, 10 * t)) && Plain(Tens()[t]) && Tens()[t] != "and"
  {
    hide Lookup, Plain;
    if t == 1 {
      assert KnownUnits()[10] == Tens()[1];
      KnownUnit(10);
    } else {
      assert KnownTens()[t] == Tens()[t];
      KnownTen(t);
    }
  }

  lemma ScaleKnown(k: nat)
    requires k < 22
    ensures |Scales()| == 22 && |Thousands()| == 22
    ensures Lookup(Scales()[k]) == Some(Effect(if k == 0 then 100 else Pow(10, 3 * k), 0))
    ensures Plain(Scales()[k]) && Scales()[k] != "and" && (k > 0 ==> Thousands()[k] == Scales()[k])
  {
    hide KnownUnits, KnownTens, Scales, LastIndex, Plain, Thousands, Pow;
    ScaleWords();
    ScalesDiffer();
    SameScales(k);
    var i := LastIndex(Scales(), Scales()[k]);
    assert i == k;
  }

  lemma SameScales(k: nat)
    requires k < 22
    ensures |Scales()| == 22 && |Thousands()| == 22
    ensures k > 0 ==> Thousands()[k] == Scales()[k]
  {
  }

  // ---------- printing ----------

  function GroupValue(h: nat, t: nat, u: nat): nat {
    100 * h + 10 * t + u
  }

  function Below(t: nat, u: nat): seq<string>
    requires t < 10 && u < 10
  {
    if t > 1 then [Tens()[t]] + (if u >= 1 then [Units()[u]] else [])
    else if t == 1 then (if u >= 1 then [Teens()[u]] else [Tens()[t]])
    else if u >= 1 then [Units()[u]]
    else []
  }

  function Hundreds(h: nat): seq<string>
    requires h < 10
  {
    if h >= 1 then [Units()[h], "hundred"] else []
  }

  /** A group of three digits, g groups from the right. */
  function Group(h: nat, t: nat, u: nat, g: nat): seq<string>
    requires h < 10 && t < 10 && u < 10 && g < 22
  {
    var words := Hundreds(h) + Below(t, u);
    if g >= 1 && h + t + u > 0 then words + [Thousands()[g]] else words
  }

  ghost predicate DigitsOk(num: seq<nat>) {
    |num| % 3 == 0 && forall k | 0 <= k < |num| :: num[k] < 10
  }

  /** The words of the first i groups. */
  function Groups(num: seq<nat>, i: nat): seq<string>
    requires DigitsOk(num) && 3 * i <= |num| <= 66
  {
    if i == 0 then []
    else Groups(num, i - 1) + Group(num[3*i-3], num[3*i-2], num[3*i-1], |num| / 3 - i)
  }

  function Padded(n: nat): (num: seq<nat>)
    ensures DigitsOk(num) && |num| >= |Digits(n)|
  {
    Zfill(Digits(n), (|Digits(n)| + 2) / 3 * 3)
  }

  /** The text of n, below ten to the 66th. */
  function Text(n: nat): string
    requires |Padded(n)| <= 66
  {
    if n == 0 then Join(["zero"]) else Join(Groups(Padded(n), |Padded(n)| / 3))
  }

  // ---------- reading ----------

  datatype Reader = Reader(current: nat, result: nat, newText: seq<string>, started: bool, previous: string, added: bool)

  datatype Read = Number(value: nat) | Mixed(text: string)

  function Apply(e: Effect, current: nat): nat {
    current * e.scale + e.increment
  }

  function Start(): Reader {
    Reader(0, 0, [], false, "", false)
  }

  /** The word is not taken as part of a number. */
  predicate Refuses(r: Reader, original: string) {
    var word := Lower(original);
    Lookup(word).None? || (!r.started && word == "and") || (r.started && word == "and" && Lower(r.previous) == "and")
  }

  /** One word of the text. */
  function Next(r: Reader, original: string): Reader {
    hide Lookup, Str;
    var word := Lower(original);
    if Refuses(r, original) then
      var flushed := if r.started then r.newText + [Str(r.result + r.current)] else r.newText;
      var late := if Lower(r.previous) == "and" && !r.added then flushed + [r.previous] else flushed;
      Reader(if r.started then 0 else r.current, if r.started then 0 else r.result, late + [original], false, original, true)
    else
      var e := Lookup(word).value;
      var current := Apply(e, r.current);
      if e.scale > 100 then Reader(0, r.result + current, r.newText, true, original, false)
      else Reader(current, r.result, r.newText, true, original, false)
  }

  function ReadAll(r: Reader, words: seq<string>): Reader {
    if words == [] then r else Next(ReadAll(r, words[..|words|-1]), words[|words|-1])
  }

  function Finish(r: Reader): Read {
    if r.newText == [] then
      if Lower(r.previous) == "and" then Mixed(Join([Str(r.result + r.current), r.previous])) else Number(r.result + r.current)
    else Mixed(Join(r.newText))
  }

  function ReadText(text: string): Read {
    Finish(ReadAll(Start(), Split(text)))
  }

  // ---------- reading what was printed ----------

  /** No text so far but numbers, and no "and" pending. */
  ghost predicate Clean(r: Reader) {
    r.newText == [] && Lower(r.previous) != "and"
  }

  lemma NextNumber(r: Reader, w: string, e: Effect)
    requires Clean(r) && Plain(w) && w != "and" && Lookup(w) == Some(e)
    ensures Clean(Next(r, w))
    ensures Next(r, w).current == (if e.scale > 100 then 0 else Apply(e, r.current))
    ensures Next(r, w).result == r.result + (if e.scale > 100 then Apply(e, r.current) else 0)
  {
    hide Lookup, Plain, Str;
    PlainLower(w);
  }

  lemma {:induction false} ReadOn(r: Reader, a: seq<string>, b: seq<string>)
    ensures ReadAll(r, a + b) == ReadAll(ReadAll(r, a), b)
  {
    hide Next;
    if b == [] {
      assert a + b == a;
    } else {
      assert (a + b)[..|a + b| - 1] == a + b[..|b|-1];
      ReadOn(r, a, b[..|b|-1]);
    }
  }

  lemma ReadOne(r: Reader, w: string)
    ensures ReadAll(r, [w]) == Next(r, w)
  {
    hide Next;
    assert [w][..0] == [];
  }

  /** Reading on from r yields this number, in these two parts. */
  ghost predicate Reads(r: Reader, words: seq<string>, current: nat, result: nat) {
    var after := ReadAll(r, words);
    Clean(after) && after.current == current && after.result == result
  }

  ghost predicate Totals(r: Reader, words: seq<string>, total: nat) {
    var after := ReadAll(r, words);
    Clean(after) && after.result + after.current == total
  }

  lemma ReadsWord(r: Reader, words: seq<string>, w: string, e: Effect, current: nat, result: nat)
    requires Reads(r, words, current, result) && Plain(w) && w != "and" && Lookup(w) == Some(e)
    ensures Reads(r, words + [w], if e.scale > 100 then 0 else Apply(e, current), result + if e.scale > 100 then Apply(e, current) else 0)
  {
    hide Next, Lookup, Plain, Apply, Clean;
    ReadOn(r, words, [w]);
    ReadOne(ReadAll(r, words), w);
    NextNumber(ReadAll(r, words), w, e);
  }

  lemma ReadsHundreds(r: Reader, h: nat)
    requires Clean(r) && r.current == 0 && h < 10
    ensures Reads(r, Hundreds(h), 100 * h, r.result)
  {
    hide Next, Lookup, Plain, Clean, Units, Scales;
    assert Reads(r, [], 0, r.result);
    if h >= 1 {
      UnitKnown(h);
      ScaleKnown(0);
      assert Scales()[0] == "hundred" by { FirstScale(); }
      UnitsCount();
      ReadsWord(r, [], Units()[h], Effect(1, h), 0, r.result);
      ReadsWord(r, [] + [Units()[h]], "hundred", Effect(100, 0), h, r.result);
      assert [] + [Units()[h]] + ["hundred"] == [Units()[h], "hundred"];
    }
  }

  lemma FirstScale()
    ensures |Scales()| > 0 && Scales()[0] == "hundred"
  {
  }

  lemma UnitsCount()
    ensures |Units()| == |Teens()| == |Tens()| == 10
  {
  }

  lemma ReadsBelow(r: Reader, words: seq<string>, c: nat, t: nat, u: nat)
    requires Reads(r, words, c, r.result) && t < 10 && u < 10
    ensures Reads(r, words + Below(t, u), c + 10 * t + u, r.result)
  {
    hide Next, Lookup, Plain, Reads, Units, Teens, Tens;
    UnitsCount();
    if t == 1 && u >= 1 {
      TeenKnown(u);
      ReadsWord(r, words, Teens()[u], Effect(1, 10 + u), c, r.result);
    } else {
      var more := words;
      if t >= 1 {
        TenKnown(t);
        ReadsWord(r, words, Tens()[t], Effect(1, 10 * t), c, r.result);
        more := words + [Tens()[t]];
      }
      if u >= 1 {
        UnitKnown(u);
        ReadsWord(r, more, Units()[u], Effect(1, u), c + 10 * t, r.result);
        more := more + [Units()[u]];
      }
      assert more == words + Below(t, u);
    }
  }

  lemma {:induction false} BigScale(g: nat)
    requires g >= 1
    ensures Pow(10, 3 * g) > 100 && Pow(10, 3 * g) == 1000 * Pow(10, 3 * (g - 1))
  {
    var e := 3 * (g - 1);
    assert Pow(10, e + 1) == 10 * Pow(10, e);
    assert Pow(10, e + 2) == 10 * Pow(10, e + 1);
    assert Pow(10, e + 3) == 10 * Pow(10, e + 2);
  }

  ghost function Scaled(v: nat, g: nat): nat {
    v * Pow(10, 3 * g)
  }

  /** A group leaves its value: multiplied and put aside, or pending if it is the last. */
  lemma ReadsGroup(r: Reader, h: nat, t: nat, u: nat, g: nat)
    requires Clean(r) && r.current == 0 && h < 10 && t < 10 && u < 10 && g < 22
    ensures g >= 1 ==> Reads(r, Group(h, t, u, g), 0, r.result + Scaled(GroupValue(h, t, u), g))
    ensures g == 0 ==> Reads(r, Group(h, t, u, g), GroupValue(h, t, u), r.result)
  {
    hide Next, Lookup, Plain, Reads, Below, Hundreds, Thousands, Scaled, Clean, Group, Units, Tens, Teens;
    hide GroupValue;
    var words, v := Hundreds(h) + Below(t, u), GroupValue(h, t, u);
    GroupIs(h, t, u, g);
    ReadsDigits(r, h, t, u);
    if g >= 1 && h + t + u > 0 {
      ReadsScale(r, words, v, g);
    } else if g >= 1 {
      ScaledZero(g);
    }
  }

  /** Three digits are read as their value. */
  lemma ReadsDigits(r: Reader, h: nat, t: nat, u: nat)
    requires Clean(r) && r.current == 0 && h < 10 && t < 10 && u < 10
    ensures Reads(r, Hundreds(h) + Below(t, u), GroupValue(h, t, u), r.result)
  {
    hide Next, Lookup, Plain, Reads, Below, Hundreds, Clean;
    ReadsHundreds(r, h);
    ReadsBelow(r, Hundreds(h), 100 * h, t, u);
  }

  lemma GroupIs(h: nat, t: nat, u: nat, g: nat)
    requires h < 10 && t < 10 && u < 10 && g < 22
    ensures |Thousands()| == 22
    ensures g >= 1 && h + t + u > 0 ==> Group(h, t, u, g) == Hundreds(h) + Below(t, u) + [Thousands()[g]]
    ensures g == 0 || h + t + u == 0 ==> Group(h, t, u, g) == Hundreds(h) + Below(t, u)
    ensures h + t + u == 0 ==> GroupValue(h, t, u) == 0
  {
    hide Hundreds, Below;
  }

  lemma ScaledZero(g: nat)
    ensures Scaled(0, g) == 0
  {
  }

  lemma ReadsScale(r: Reader, words: seq<string>, v: nat, g: nat)
    requires Reads(r, words, v, r.result) && 1 <= g < 22
    ensures |Thousands()| == 22
    ensures Reads(r, words + [Thousands()[g]], 0, r.result + Scaled(v, g))
  {
    hide Next, Lookup, Plain, Reads, Scales, Thousands;
    BigScale(g);
    hide Pow;
    ScaleKnown(g);
    ReadsWord(r, words, Thousands()[g], Effect(Pow(10, 3 * g), 0), v, r.result);
  }

  lemma ValueGroup(num: seq<nat>, i: nat)
    requires 1 <= i && 3 * i <= |num|
    ensures Value(num[..3*i]) == 1000 * Value(num[..3*i-3]) + GroupValue(num[3*i-3], num[3*i-2], num[3*i-1])
  {
    ValueNext(num, 3 * i - 3);
    ValueNext(num, 3 * i - 2);
    ValueNext(num, 3 * i - 1);
  }

  lemma ValueNext(num: seq<nat>, k: nat)
    requires k < |num|
    ensures Value(num[..k+1]) == 10 * Value(num[..k]) + num[k]
  {
    assert num[..k+1][..k] == num[..k];
  }

  /** After i groups all they are worth is put aside; after the last the sum is the number. */
  lemma {:induction false} ReadsGroups(num: seq<nat>, i: nat)
    requires DigitsOk(num) && 3 * i <= |num| <= 66
    ensures 3 * i < |num| ==> Reads(Start(), Groups(num, i), 0, Scaled(Value(num[..3*i]), |num| / 3 - i))
    ensures 3 * i == |num| > 0 ==> Totals(Start(), Groups(num, i), Value(num))
  {
    hide Next, Group, Value, Pow, Clean, Scaled, ReadAll, GroupValue;
    if i > 0 {
      ReadsGroups(num, i - 1);
      var r, g := ReadAll(Start(), Groups(num, i - 1)), |num| / 3 - i;
      var h, t, u := num[3*i-3], num[3*i-2], num[3*i-1];
      ReadsGroup(r, h, t, u, g);
      ReadOn(Start(), Groups(num, i - 1), Group(h, t, u, g));
      ValueGroup(num, i);
      Regroup(Value(num[..3*i-3]), GroupValue(h, t, u), g);
      if g == 0 {
        assert num[..3*i] == num;
      }
    } else {
      assert num[..0] == [];
      StartReads(|num| / 3);
    }
  }

  lemma StartReads(g: nat)
    ensures Reads(Start(), [], 0, Scaled(Value([]), g))
  {
  }

  lemma Regroup(before: nat, v: nat, g: nat)
    ensures Scaled(before, g + 1) + Scaled(v, g) == Scaled(1000 * before + v, g)
    ensures g == 0 ==> Scaled(before, 1) + v == 1000 * before + v
  {
    BigScale(g + 1);
    assert Pow(10, 0) == 1;
    var p := Pow(10, 3 * g);
    assert before * (1000 * p) + v * p == (1000 * before + v) * p;
  }

  lemma {:induction false} GroupsPlain(num: seq<nat>, i: nat)
    requires DigitsOk(num) && 3 * i <= |num| <= 66
    ensures forall w | w in Groups(num, i) :: Plain(w)
  {
    hide Plain, Group;
    if i > 0 {
      GroupsPlain(num, i - 1);
      GroupPlain(num[3*i-3], num[3*i-2], num[3*i-1], |num| / 3 - i);
    }
  }

  lemma GroupPlain(h: nat, t: nat, u: nat, g: nat)
    requires h < 10 && t < 10 && u < 10 && g < 22
    ensures forall w | w in Group(h, t, u, g) :: Plain(w)
  {
    hide Plain, Units, Teens, Tens, Thousands, Scales, Lookup;
    UnitsCount();
    UnitKnown(h);
    UnitKnown(u);
    ScaleKnown(0);
    ScaleKnown(g);
    FirstScale();
    if t >= 1 {
      TenKnown(t);
    }
    if u >= 1 {
      TeenKnown(u);
    }
  }

  /** Reading a printed number gives the number back. */
  lemma RoundTrip(n: nat)
    requires |Padded(n)| <= 66
    ensures ReadText(Text(n)) == Number(n)
  {
    hide Next, Plain, Lookup, Groups, Value, Split, Join, Units;
    if n == 0 {
      UnitKnown(0);
      FirstUnit();
      SplitJoin(["zero"]);
      ReadOne(Start(), "zero");
      assert Clean(Start());
      NextNumber(Start(), "zero", Effect(1, 0));
    } else {
      var num := Padded(n);
      PaddedValue(n);
      GroupsPlain(num, |num| / 3);
      SplitJoin(Groups(num, |num| / 3));
      ReadsGroups(num, |num| / 3);
    }
  }

  lemma FirstUnit()
    ensures |Units()| == 10 && Units()[0] == "zero"
  {
  }

  lemma PaddedValue(n: nat)
    ensures Value(Padded(n)) == n && |Padded(n)| > 0
  {
    DigitsValue(n);
    ZfillValue(Digits(n), (|Digits(n)| + 2) / 3 * 3);
  }

  /** So no two numbers print alike. */
  lemma TextInjective(n: nat, m: nat)
    requires |Padded(n)| <= 66 && |Padded(m)| <= 66 && Text(n) == Text(m)
    ensures n == m
  {
    RoundTrip(n);
    RoundTrip(m);
  }

  /** Numbers below ten to the 66th, and no others, can be printed. */
  lemma Printable(n: nat)
    ensures |Padded(n)| <= 66 <==> n < Pow(10, 66)
  {
    hide Pow;
    DigitsLength(n, 65);
    assert Pow(10, 66) == 10 * Pow(10, 65) by { PowNext(65); }
  }

  lemma PowNext(e: nat)
    ensures Pow(10, e + 1) == 10 * Pow(10, e)
  {
  }

  // ---------- reading any text ----------

  /** Word i is taken as part of a number: it is a number word, and an "and" comes after one that is no "and". */
  predicate Takes(ws: seq<string>, i: nat)
    requires i < |ws|
  {
    && Lookup(Lower(ws[i])).Some?
    && (Lower(ws[i]) == "and" ==> i > 0 && Takes(ws, i - 1) && Lower(ws[i-1]) != "and")
  }

  /** Where the number that ends just before word n begins; n itself if none does. */
  function RunStart(ws: seq<string>, n: nat): (b: nat)
    requires n <= |ws|
    ensures b <= n
  {
    if n > 0 && Takes(ws, n - 1) then RunStart(ws, n - 1) else n
  }

  lemma {:induction false} RunFacts(ws: seq<string>, n: nat)
    requires n <= |ws|
    ensures var b := RunStart(ws, n);
            (forall i | b <= i < n :: Takes(ws, i)) && (b > 0 ==> !Takes(ws, b - 1))
  {
    hide Takes;
    if n > 0 && Takes(ws, n - 1) {
      RunFacts(ws, n - 1);
    }
  }

  /** What a run of number words is worth, still to be multiplied and put aside. */
  datatype Sum = Sum(current: nat, result: nat) {
    function Total(): nat {
      result + current
    }
  }

  function Worth(run: seq<string>): Sum {
    if run == [] then Sum(0, 0)
    else
      var before, e := Worth(run[..|run|-1]), Lookup(Lower(run[|run|-1]));
      if e.None? then before
      else if e.value.scale > 100 then Sum(0, before.result + Apply(e.value, before.current))
      else Sum(Apply(e.value, before.current), before.result)
  }

  /** The text of the first n words: every run of number words as one number, with the "and" it may end in after it,
      and all other words as they are. */
  function Pieces(ws: seq<string>, n: nat): (r: seq<string>)
    requires n <= |ws|
    ensures r == [] <==> n == 0
  {
    if n == 0 then []
    else if !Takes(ws, n - 1) then Pieces(ws, n - 1) + [ws[n-1]]
    else
      var b := RunStart(ws, n - 1);
      Pieces(ws, b) + [Str(Worth(ws[b..n]).Total())] + if Lower(ws[n-1]) == "and" then [ws[n-1]] else []
  }

  /** What a text should read as: a number if it is one, and otherwise the text with its numbers read. */
  function Intended(ws: seq<string>): Read {
    if RunStart(ws, |ws|) > 0 || (ws != [] && Lower(ws[|ws|-1]) == "and") then Mixed(Join(Pieces(ws, |ws|)))
    else Number(Worth(ws).Total())
  }

  /** What the reader holds after n words: the text before the run it is in, and what the run is worth. */
  ghost predicate Holds(r: Reader, ws: seq<string>, n: nat)
    requires n <= |ws|
  {
    var b := RunStart(ws, n);
    && r.newText == Pieces(ws, b) && (r.started <==> b < n) && Sum(r.current, r.result) == Worth(ws[b..n])
    && r.previous == (if n == 0 then "" else ws[n-1]) && (r.added <==> 0 < n == b)
  }

  lemma {:induction false} ReaderHolds(ws: seq<string>, n: nat)
    requires n <= |ws|
    ensures Holds(ReadAll(Start(), ws[..n]), ws, n)
  {
    hide Holds, Next;
    if n == 0 {
      NothingRead(ws);
    } else {
      ReaderHolds(ws, n - 1);
      assert ws[..n][..n-1] == ws[..n-1];
      if Takes(ws, n - 1) {
        TakenStep(ReadAll(Start(), ws[..n-1]), ws, n - 1);
      } else {
        OtherStep(ReadAll(Start(), ws[..n-1]), ws, n - 1);
      }
    }
  }

  lemma NothingRead(ws: seq<string>)
    ensures Holds(ReadAll(Start(), ws[..0]), ws, 0)
  {
  }

  /** The reader takes a word as part of a number exactly when it is one. */
  lemma NextTakes(r: Reader, ws: seq<string>, n: nat)
    requires n < |ws| && Holds(r, ws, n)
    ensures Next(r, ws[n]).started <==> Takes(ws, n)
  {
    hide Lookup, Str, Pieces, Worth, Lower;
    assert Lower("") != "and" by { EmptyLower(); }
  }

  lemma EmptyLower()
    ensures Lower("") == ""
  {
  }

  lemma TakenStep(r: Reader, ws: seq<string>, n: nat)
    requires n < |ws| && Holds(r, ws, n) && Takes(ws, n)
    ensures Holds(Next(r, ws[n]), ws, n + 1)
  {
    hide Lookup, Str, Pieces, Lower, Takes;
    NextTakes(r, ws, n);
    var b := RunStart(ws, n);
    WorthNext(ws, b, n);
    TakesKnown(ws, n);
  }

  lemma TakesKnown(ws: seq<string>, n: nat)
    requires n < |ws| && Takes(ws, n)
    ensures Lookup(Lower(ws[n])).Some?
  {
  }

  lemma WorthNext(ws: seq<string>, b: nat, n: nat)
    requires b <= n < |ws|
    ensures var before, e := Worth(ws[b..n]), Lookup(Lower(ws[n]));
            Worth(ws[b..n+1]) ==
              (if e.None? then before
               else if e.value.scale > 100 then Sum(0, before.result + Apply(e.value, before.current))
               else Sum(Apply(e.value, before.current), before.result))
  {
    hide Lookup, Lower;
    assert ws[b..n+1][..n-b] == ws[b..n];
  }

  lemma OtherStep(r: Reader, ws: seq<string>, n: nat)
    requires n < |ws| && Holds(r, ws, n) && !Takes(ws, n)
    ensures Holds(Next(r, ws[n]), ws, n + 1)
  {
    hide Lookup, Str, Lower, Worth, Takes, Pieces, RunStart, Next;
    NextTakes(r, ws, n);
    EmptyLower();
    NoWorth(ws, n);
    PiecesSplit(ws, n);
    NoWorth(ws, n + 1);
    RunEnds(ws, n);
    NextOther(r, ws[n]);
    assert Late(r) <==> RunStart(ws, n) < n && Lower(ws[n-1]) == "and";
  }

  /** An "and" is pending after a number. */
  predicate Late(r: Reader) {
    Lower(r.previous) == "and" && !r.added
  }

  lemma RunEnds(ws: seq<string>, n: nat)
    requires n < |ws| && !Takes(ws, n)
    ensures RunStart(ws, n + 1) == n + 1 && Pieces(ws, n + 1) == Pieces(ws, n) + [ws[n]]
  {
    hide Takes, Str, Worth;
  }

  /** A word that is not taken closes the number before it. */
  lemma NextOther(r: Reader, w: string)
    requires !Next(r, w).started
    ensures Next(r, w) == Reader(if r.started then 0 else r.current, if r.started then 0 else r.result,
                                 (if r.started then r.newText + [Str(r.result + r.current)] else r.newText)
                                 + (if Late(r) then [r.previous] else []) + [w],
                                 false, w, true)
  {
    hide Lookup, Str;
  }

  lemma NoWorth(ws: seq<string>, n: nat)
    requires n <= |ws|
    ensures Worth(ws[n..n]) == Sum(0, 0)
  {
  }

  /** The pieces of n words are those before the last run, and the run. */
  lemma PiecesSplit(ws: seq<string>, n: nat)
    requires n <= |ws|
    ensures var b := RunStart(ws, n);
            Pieces(ws, n) == (if b < n then Pieces(ws, b) + [Str(Worth(ws[b..n]).Total())] else Pieces(ws, b))
                             + (if b < n && Lower(ws[n-1]) == "and" then [ws[n-1]] else [])
  {
    hide Lookup, Str, Lower, Worth, Takes;
  }

  /** What the reader makes of any text: the intended reading of it if it is all one number, and otherwise its pieces
      up to the run it ends in, which is dropped. */
  lemma Reading(ws: seq<string>)
    ensures var b := RunStart(ws, |ws|);
            Finish(ReadAll(Start(), ws)) == if b == 0 then Intended(ws) else Mixed(Join(Pieces(ws, b)))
  {
    hide Next, Lookup, Str, Lower, Worth, Join, Takes, Pieces, RunStart, ReadAll, Finish, Intended;
    var r, b := ReadAll(Start(), ws), RunStart(ws, |ws|);
    ReaderHolds(ws, |ws|);
    assert ws[..|ws|] == ws && ws[0..|ws|] == ws;
    EmptyLower();
    FinishText(r);
    NoPieces(ws);
    if b == 0 {
      AllOneNumber(ws);
    }
  }

  lemma AllOneNumber(ws: seq<string>)
    requires RunStart(ws, |ws|) == 0
    ensures ws != [] && Lower(ws[|ws|-1]) == "and" ==> Intended(ws) == Mixed(Join([Str(Worth(ws).Total()), ws[|ws|-1]]))
    ensures ws == [] || Lower(ws[|ws|-1]) != "and" ==> Intended(ws) == Number(Worth(ws).Total())
  {
    hide Str, Lower, Worth, Join, Takes, RunStart, Pieces;
    PiecesSplit(ws, |ws|);
    NoPieces(ws);
    assert ws[0..|ws|] == ws;
    var total := [Str(Worth(ws).Total())];
    assert [] + total == total;
    if ws != [] && Lower(ws[|ws|-1]) == "and" {
      assert Pieces(ws, |ws|) == total + [ws[|ws|-1]] == [Str(Worth(ws).Total()), ws[|ws|-1]];
    }
  }

  lemma NoPieces(ws: seq<string>)
    ensures Pieces(ws, 0) == []
  {
  }

  lemma FinishText(r: Reader)
    ensures r.newText != [] ==> Finish(r) == Mixed(Join(r.newText))
    ensures r.newText == [] && Lower(r.previous) == "and" ==> Finish(r) == Mixed(Join([Str(r.result + r.current), r.previous]))
    ensures r.newText == [] && Lower(r.previous) != "and" ==> Finish(r) == Number(r.result + r.current)
  {
    hide Str, Join, Lower;
  }

  /** The reader gives the intended reading exactly of the texts that are all one number, or whose last word is not
      part of a number. */
  lemma IntendedExactly(ws: seq<string>)
    ensures Finish(ReadAll(Start(), ws)) == Intended(ws)
       <==> (forall i | 0 <= i < |ws| :: Takes(ws, i)) || !Takes(ws, |ws| - 1)
  {
    hide Next, Lookup, Str, Lower, Worth, Join, ReadAll, Finish, Takes, Pieces;
    var b := RunStart(ws, |ws|);
    RunFacts(ws, |ws|);
    Reading(ws);
    PiecesSplit(ws, |ws|);
    if 0 < b < |ws| {
      assert !Takes(ws, b - 1) && Takes(ws, |ws| - 1);
      var kept, all := Pieces(ws, b), Pieces(ws, |ws|);
      assert all == kept + all[|kept|..];
      JoinLonger(kept, all[|kept|..]);
    }
  }

  lemma {:induction false} JoinLonger(a: seq<string>, b: seq<string>)
    requires a != [] && b != []
    ensures |Join(a + b)| > |Join(a)|
  {
    var all := a + b;
    assert all[0] == a[0] && all[1..] == a[1..] + b;
    if |a| > 1 {
      JoinLonger(a[1..], b);
    }
  }

  // ---------- a number within a text ----------

  /** Words that are no part of a number stay as they are. */
  lemma {:induction false} OthersKept(ws: seq<string>, m: nat, n: nat)
    requires m <= n <= |ws| && forall i | m <= i < n :: !Takes(ws, i)
    ensures Pieces(ws, n) == Pieces(ws, m) + ws[m..n]
  {
    hide Takes, Str, Worth, Pieces, RunStart;
    if m < n {
      OthersKept(ws, m, n - 1);
      RunEnds(ws, n - 1);
      assert ws[m..n] == ws[m..n-1] + [ws[n-1]];
    }
  }

  lemma {:induction false} RunIs(ws: seq<string>, b: nat, n: nat)
    requires b <= n <= |ws| && (forall i | b <= i < n :: Takes(ws, i)) && (b > 0 ==> !Takes(ws, b - 1))
    ensures RunStart(ws, n) == b
  {
    hide Takes;
    if b < n {
      RunIs(ws, b, n - 1);
    }
  }

  /** One number in the middle of a text: its words give way to its digits, an "and" it ends in stays behind it. */
  lemma NumberInText(ws: seq<string>, b: nat, n: nat)
    requires b < n < |ws|
    requires forall i | 0 <= i < |ws| :: Takes(ws, i) <==> b <= i < n
    ensures Finish(ReadAll(Start(), ws)) ==
              Mixed(Join(ws[..b] + [Str(Worth(ws[b..n]).Total())] + (if Lower(ws[n-1]) == "and" then [ws[n-1]] else []) + ws[n..]))
  {
    hide Next, Lookup, Str, Lower, Worth, Join, Takes, Pieces, RunStart, ReadAll, Finish, Intended;
    NoPieces(ws);
    OthersKept(ws, 0, b);
    RunIs(ws, b, n);
    PiecesSplit(ws, n);
    OthersKept(ws, n, |ws|);
    RunIs(ws, |ws|, |ws|);
    Reading(ws);
    assert [] + ws[0..b] == ws[..b] && ws[n..|ws|] == ws[n..];
  }

  /** A text without numbers stays as it is, but for the space between its words. */
  lemma TextKept(ws: seq<string>)
    requires ws != [] && forall i | 0 <= i < |ws| :: !Takes(ws, i)
    ensures Finish(ReadAll(Start(), ws)) == Mixed(Join(ws))
  {
    hide Next, Lookup, Str, Lower, Worth, Join, Takes, Pieces, RunStart, ReadAll, Finish, Intended;
    NoPieces(ws);
    OthersKept(ws, 0, |ws|);
    RunIs(ws, |ws|, |ws|);
    Reading(ws);
    assert [] + ws[0..|ws|] == ws;
  }

  // ---------- "and" within a number ----------

  ghost predicate IsAnd(w: string) {
    Lower(w) == "and"
  }

  /** The words but for every "and". */
  ghost function Without(ws: seq<string>): (r: seq<string>)
    ensures forall w | w in r :: w in ws && !IsAnd(w)
    ensures forall w | w in ws && !IsAnd(w) :: w in r
  {
    if ws == [] then [] else
      var last := ws[|ws|-1];
      assert ws == ws[..|ws|-1] + [last];
      Without(ws[..|ws|-1]) + if IsAnd(last) then [] else [last]
  }

  lemma AndKnown()
    ensures Lookup("and") == Some(Effect(1, 0))
  {
    AndApart();
    hide KnownUnits, KnownTens, Scales;
  }

  lemma AndApart()
    ensures "and" !in KnownUnits() && "and" !in KnownTens() && "and" !in Scales()
  {
  }

  /** An "and" does nothing to the worth of a run, wherever it stands. */
  lemma {:induction false} AndWorthNothing(a: seq<string>, w: string, b: seq<string>)
    requires IsAnd(w)
    ensures Worth(a + [w] + b) == Worth(a + b)
  {
    hide Lookup, Lower;
    if b == [] {
      assert (a + [w] + b)[..|a|] == a && a + b == a;
      AndKnown();
    } else {
      var whole, less := a + [w] + b, a + b;
      assert whole[..|whole|-1] == a + [w] + b[..|b|-1] && less[..|less|-1] == a + b[..|b|-1];
      AndWorthNothing(a, w, b[..|b|-1]);
    }
  }

  lemma {:induction false} WorthWithout(ws: seq<string>)
    ensures Worth(ws) == Worth(Without(ws))
  {
    hide Lookup, IsAnd, Worth;
    if ws != [] {
      var front, last := ws[..|ws|-1], ws[|ws|-1];
      WorthWithout(front);
      assert ws == front + [last];
      if IsAnd(last) {
        assert front + [last] + [] == ws && front + [] == front;
        AndWorthNothing(front, last, []);
        assert Without(front) + [] == Without(front);
      } else {
        WorthLast(front, last);
        WorthLast(Without(front), last);
      }
    }
  }

  lemma WorthLast(front: seq<string>, last: string)
    ensures Worth(front + [last]) ==
              var before, e := Worth(front), Lookup(Lower(last));
              if e.None? then before
              else if e.value.scale > 100 then Sum(0, before.result + Apply(e.value, before.current))
              else Sum(Apply(e.value, before.current), before.result)
  {
    hide Lookup, Lower;
    assert (front + [last])[..|front|] == front;
  }

  /** Every "and" comes after a word that is none. */
  ghost predicate AndsApart(ws: seq<string>) {
    forall i | 0 <= i < |ws| && IsAnd(ws[i]) :: i > 0 && !IsAnd(ws[i-1])
  }

  lemma {:induction false} AllTaken(ws: seq<string>, i: nat)
    requires i < |ws| && AndsApart(ws) && forall w | w in Without(ws) :: Lookup(Lower(w)).Some?
    ensures Takes(ws, i)
  {
    hide Lookup, Lower, Without;
    if IsAnd(ws[i]) {
      AndKnown();
      AllTaken(ws, i - 1);
    } else {
      assert ws[i] in Without(ws);
    }
  }

  /** The words of n. */
  function WordsOf(n: nat): seq<string>
    requires |Padded(n)| <= 66
  {
    if n == 0 then ["zero"] else Groups(Padded(n), |Padded(n)| / 3)
  }

  lemma {:induction false} GroupsKnown(num: seq<nat>, i: nat)
    requires DigitsOk(num) && 3 * i <= |num| <= 66
    ensures forall w | w in Groups(num, i) :: Lookup(w).Some? && w != "and"
  {
    hide Group, Lookup;
    if i > 0 {
      GroupsKnown(num, i - 1);
      GroupKnown(num[3*i-3], num[3*i-2], num[3*i-1], |num| / 3 - i);
    }
  }

  lemma GroupKnown(h: nat, t: nat, u: nat, g: nat)
    requires h < 10 && t < 10 && u < 10 && g < 22
    ensures forall w | w in Group(h, t, u, g) :: Lookup(w).Some? && w != "and"
  {
    hide Plain, Units, Teens, Tens, Thousands, Scales, Lookup;
    UnitsCount();
    UnitKnown(h);
    UnitKnown(u);
    ScaleKnown(0);
    ScaleKnown(g);
    FirstScale();
    if t >= 1 {
      TenKnown(t);
    }
    if u >= 1 {
      TeenKnown(u);
    }
  }

  lemma WordsKnown(n: nat)
    requires |Padded(n)| <= 66
    ensures Text(n) == Join(WordsOf(n)) && WordsOf(n) != []
    ensures forall w | w in WordsOf(n) :: Plain(w) && Lower(w) == w && Lookup(w).Some? && !IsAnd(w)
  {
    hide Plain, Lookup, Groups, Units;
    if n == 0 {
      FirstUnit();
      UnitKnown(0);
    } else {
      GroupsPlain(Padded(n), |Padded(n)| / 3);
      GroupsKnown(Padded(n), |Padded(n)| / 3);
      NotEmpty(n);
    }
    forall w | w in WordsOf(n) ensures Lower(w) == w {
      PlainLower(w);
    }
  }

  lemma NotEmpty(n: nat)
    requires n > 0 && |Padded(n)| <= 66
    ensures Groups(Padded(n), |Padded(n)| / 3) != []
  {
    hide Next, Group, Value, Groups, Str;
    PaddedValue(n);
    ReadsGroups(Padded(n), |Padded(n)| / 3);
    EmptyTotals(n);
  }

  lemma EmptyTotals(total: nat)
    ensures Totals(Start(), [], total) ==> total == 0
  {
  }

  /** What the reader makes of words that are all one number. */
  lemma OneNumber(ws: seq<string>)
    requires ws != [] && (forall i | 0 <= i < |ws| :: Takes(ws, i)) && !IsAnd(ws[|ws|-1])
    ensures Finish(ReadAll(Start(), ws)) == Number(Worth(ws).Total())
  {
    hide Next, Lookup, Str, Lower, Worth, Join, Takes, Pieces, ReadAll, Finish;
    Reading(ws);
    RunFacts(ws, |ws|);
  }

  /** The number's words with an "and" put between any of them read as the number. */
  lemma AndIgnored(n: nat, ws: seq<string>)
    requires |Padded(n)| <= 66 && Without(ws) == WordsOf(n) && AndsApart(ws) && ws != [] && !IsAnd(ws[|ws|-1])
    requires forall w | w in ws && IsAnd(w) :: w == "and"
    ensures ReadText(Join(ws)) == Number(n)
  {
    hide Next, Lookup, Str, Worth, Join, Split, Takes, ReadAll, Finish, Plain, Lower, Groups, Without;
    var own := WordsOf(n);
    WordsKnown(n);
    forall w | w in ws ensures Plain(w) {
      if IsAnd(w) {
        AndPlain();
      }
    }
    SplitJoin(ws);
    forall i | 0 <= i < |ws| ensures Takes(ws, i) {
      AllTaken(ws, i);
    }
    OneNumber(ws);
    WorthWithout(ws);
    OwnWorth(n);
  }

  lemma AndPlain()
    ensures Plain("and")
  {
  }

  /** The words of n are worth n. */
  lemma OwnWorth(n: nat)
    requires |Padded(n)| <= 66
    ensures Worth(WordsOf(n)).Total() == n
  {
    hide Next, Lookup, Str, Worth, Join, Split, Takes, ReadAll, Finish, Plain, Lower, Groups, WordsOf;
    var own := WordsOf(n);
    WordsKnown(n);
    OwnWithout(own);
    forall i | 0 <= i < |own| ensures Takes(own, i) {
      AllTaken(own, i);
    }
    OneNumber(own);
    SplitJoin(own);
    RoundTrip(n);
  }

  lemma {:induction false} OwnWithout(ws: seq<string>)
    requires forall w | w in ws :: !IsAnd(w)
    ensures Without(ws) == ws && AndsApart(ws)
  {
    hide IsAnd, Without;
    if ws == [] {
      assert Without([]) == [] by { NoneWithout(); }
    } else {
      var front, last := ws[..|ws|-1], ws[|ws|-1];
      assert ws == front + [last];
      assert last in ws;
      OwnWithout(front);
      WithoutLast(front, last);
    }
  }

  lemma NoneWithout()
    ensures Without([]) == []
  {
  }

  lemma WithoutLast(front: seq<string>, last: string)
    ensures Without(front + [last]) == Without(front) + if IsAnd(last) then [] else [last]
  {
    hide IsAnd;
    assert (front + [last])[..|front|] == front;
  }

  /** One "and" between two of the words. */
  lemma OneAndIgnored(n: nat, k: nat)
    requires |Padded(n)| <= 66 && 0 < k < |WordsOf(n)|
    ensures ReadText(Join(WordsOf(n)[..k] + ["and"] + WordsOf(n)[k..])) == Number(n)
  {
    hide *;
    var own := WordsOf(n);
    WordsKnown(n);
    OneAnd(own, k);
    AndIgnored(n, own[..k] + ["and"] + own[k..]);
  }

  lemma OneAnd(own: seq<string>, k: nat)
    requires 0 < k < |own| && forall w | w in own :: !IsAnd(w)
    ensures var ws := own[..k] + ["and"] + own[k..];
            && Without(ws) == own && AndsApart(ws) && ws != [] && !IsAnd(ws[|ws|-1])
            && forall w | w in ws && IsAnd(w) :: w == "and"
  {
    hide IsAnd, Without;
    assert own == own[..k] + own[k..];
    WithoutJoined(own[..k] + ["and"], own[k..]);
    WithoutJoined(own[..k], ["and"]);
    OwnWithout(own[..k]);
    OwnWithout(own[k..]);
    AndIsAnd();
    NoneLeft();
    assert own[..k] + [] == own[..k];
    assert own[|own|-1] in own && own[k-1] in own;
  }

  lemma NoneLeft()
    ensures Without(["and"]) == []
  {
    AndIsAnd();
    assert ["and"][..0] == [];
  }

  lemma AndIsAnd()
    ensures IsAnd("and")
  {
    AndPlain();
    PlainLower("and");
  }

  lemma {:induction false} WithoutJoined(a: seq<string>, b: seq<string>)
    ensures Without(a + b) == Without(a) + Without(b)
  {
    hide IsAnd;
    if b == [] {
      assert a + b == a;
    } else {
      assert (a + b)[..|a + b| - 1] == a + b[..|b|-1];
      WithoutJoined(a, b[..|b|-1]);
    }
  }

  // ---------- capital letters ----------

  /** In capital letters. */
  function Upper(s: string): (r: string)
    ensures |r| == |s|
  {
    seq(|s|, k requires 0 <= k < |s| => if 'a' <= s[k] <= 'z' then s[k] - 'a' + 'A' else s[k])
  }

  ghost function UpperWords(ws: seq<string>): (r: seq<string>)
    ensures |r| == |ws|
  {
    seq(|ws|, k requires 0 <= k < |ws| => Upper(ws[k]))
  }

  lemma LowerUpper(w: string)
    ensures Lower(Upper(w)) == Lower(w)
  {
  }

  lemma {:induction false} UpperToken(s: string)
    ensures TokenLength(Upper(s)) == TokenLength(s)
  {
    if s != [] && !Space(s[0]) {
      UpperToken(s[1..]);
      assert Upper(s)[1..] == Upper(s[1..]);
    }
  }

  lemma UpperCut(s: string, n: nat)
    requires n <= |s|
    ensures Upper(s)[..n] == Upper(s[..n]) && Upper(s)[n..] == Upper(s[n..])
    ensures s != [] ==> Space(Upper(s)[0]) == Space(s[0])
  {
  }

  /** Capitals leave a text cut where it was. */
  lemma {:induction false} UpperSplit(s: string)
    ensures Split(Upper(s)) == UpperWords(Split(s))
    decreases |s|
  {
    hide Upper, Space;
    if s != [] {
      if Space(s[0]) {
        UpperSplit(s[1..]);
        UpperCut(s, 1);
      } else {
        var n := TokenLength(s);
        UpperToken(s);
        UpperSplit(s[n..]);
        UpperCut(s, n);
      }
    }
  }

  lemma {:induction false} UpperWorth(ws: seq<string>)
    ensures Worth(UpperWords(ws)) == Worth(ws)
  {
    hide Lookup, Lower, Upper;
    if ws != [] {
      UpperWorth(ws[..|ws|-1]);
      assert UpperWords(ws)[..|ws|-1] == UpperWords(ws[..|ws|-1]);
      LowerUpper(ws[|ws|-1]);
    }
  }

  lemma {:induction false} UpperTakes(ws: seq<string>, i: nat)
    requires i < |ws|
    ensures Takes(UpperWords(ws), i) == Takes(ws, i)
  {
    hide Lookup, Lower, Upper;
    LowerUpper(ws[i]);
    if i > 0 {
      LowerUpper(ws[i-1]);
      UpperTakes(ws, i - 1);
    }
  }

  /** A number printed and put in capitals is read as the number. */
  lemma UpperRead(n: nat)
    requires |Padded(n)| <= 66
    ensures ReadText(Upper(Text(n))) == Number(n)
  {
    hide Next, Lookup, Str, Worth, Join, Split, Takes, ReadAll, Finish, Plain, Lower, Upper, WordsOf;
    var own := WordsOf(n);
    WordsKnown(n);
    OwnWithout(own);
    SplitJoin(own);
    UpperSplit(Join(own));
    forall i | 0 <= i < |own| ensures Takes(UpperWords(own), i) {
      AllTaken(own, i);
      UpperTakes(own, i);
    }
    LowerUpper(own[|own|-1]);
    OneNumber(UpperWords(own));
    UpperWorth(own);
    OwnWorth(n);
  }

  /** For instance, a number at the end of other text is lost. */
  lemma TrailingNumberLost()
    ensures ReadAll(Start(), ["x", "one"]) == Reader(1, 0, ["x"], true, "one", false)
    ensures Finish(ReadAll(Start(), ["x", "one"])) == Mixed("x")
  {
    hide Next, Lookup;
    var words := ["x", "one"];
    assert words[..1] == ["x"] && words[1] == "one";
    ReadOne(Start(), "x");
    TextFirst();
    NumberSecond();
    assert Join(["x"]) == "x";
  }

  lemma TextFirst()
    ensures Next(Start(), "x") == Reader(0, 0, ["x"], false, "x", true)
  {
    hide Lookup, Str;
    PlainLower("x");
    NotANumber();
    assert Lower("") == "";
  }

  lemma NumberSecond()
    ensures Next(Reader(0, 0, ["x"], false, "x", true), "one") == Reader(1, 0, ["x"], true, "one", false)
  {
    hide Lookup, Str;
    PlainLower("one");
    UnitKnown(1);
    assert Units()[1] == "one";
  }

  lemma NotANumber()
    ensures Lookup("x").None?
  {
  }

  // ---------- the two programs ----------

  method NumToText(n: nat) returns (text: Option<string>)
    ensures text == if |Padded(n)| <= 66 then Some(Text(n)) else None
  {
    hide Groups, Group, Digits, Zfill, Thousands, Units, Below, Join;
    var num, words := Digits(n), [];
    if num[0] == 0 {
      words := ["zero"];
      PaddedZero();
    } else {
      var groups := (|num| + 2) / 3;
      num := Zfill(num, groups * 3);
      FirstGroup(n);
      NoGroups(num);
      var i := 0;
      while i < groups
        invariant i <= groups && num == Padded(n) && |num| == 3 * groups
        invariant i > 0 ==> groups <= 22
        invariant groups <= 22 ==> words == Groups(num, i)
      {
        var h, t, u, g := num[3*i], num[3*i+1], num[3*i+2], groups - (i + 1);
        NextGroup(num, i);
        if h >= 1 {
          words := words + [Units()[h], "hundred"];
        }
        words := words + Below(t, u);
        if g >= 1 && h + t + u > 0 {
          if g >= |Thousands()| {
            return None;
          }
          words := words + [Thousands()[g]];
        }
        i := i + 1;
      }
    }
    text := Some(Join(words));
  }

  lemma PaddedZero()
    ensures |Padded(0)| == 3
  {
  }

  lemma FirstGroup(n: nat)
    requires n > 0
    ensures |Padded(n)| >= 3 && Padded(n)[0] + Padded(n)[1] + Padded(n)[2] > 0
  {
    var ds, num := Digits(n), Padded(n);
    assert num[|num| - |ds|] == ds[0];
  }

  lemma NoGroups(num: seq<nat>)
    requires DigitsOk(num)
    ensures |num| <= 66 ==> Groups(num, 0) == []
    ensures |Thousands()| == 22 && |Units()| == 10
  {
  }

  lemma NextGroup(num: seq<nat>, i: nat)
    requires DigitsOk(num) && 3 * i + 3 <= |num|
    ensures num[3*i] < 10 && num[3*i+1] < 10 && num[3*i+2] < 10 && |Units()| == 10 && |Thousands()| == 22
    ensures |num| <= 66 ==>
              var h, t, u, g := num[3*i], num[3*i+1], num[3*i+2], |num| / 3 - (i + 1);
              var below := Groups(num, i) + (if h >= 1 then [Units()[h], "hundred"] else []) + Below(t, u);
              Groups(num, i + 1) == if g >= 1 && h + t + u > 0 then below + [Thousands()[g]] else below
  {
    hide Below, Units, Thousands, Group, Groups;
    NoGroups(num);
    if |num| <= 66 {
      var h, t, u, g := num[3*i], num[3*i+1], num[3*i+2], |num| / 3 - (i + 1);
      GroupsNext(num, i);
      GroupAfter(Groups(num, i), h, t, u, g);
    }
  }

  /** A group's words behind those before them. */
  lemma GroupAfter(before: seq<string>, h: nat, t: nat, u: nat, g: nat)
    requires h < 10 && t < 10 && u < 10 && g < 22
    ensures |Units()| == 10 && |Thousands()| == 22
    ensures var below := before + (if h >= 1 then [Units()[h], "hundred"] else []) + Below(t, u);
            before + Group(h, t, u, g) == if g >= 1 && h + t + u > 0 then below + [Thousands()[g]] else below
  {
    hide Below, Units, Thousands, Group, GroupValue, Hundreds;
    UnitsCount();
    GroupIs(h, t, u, g);
    HundredsAre(h);
    var words, low := Hundreds(h), Below(t, u);
    assert before + (words + low) == before + words + low;
    if g >= 1 && h + t + u > 0 {
      assert before + (words + low + [Thousands()[g]]) == before + words + low + [Thousands()[g]];
    }
  }

  lemma HundredsAre(h: nat)
    requires h < 10
    ensures |Units()| == 10 && Hundreds(h) == if h >= 1 then [Units()[h], "hundred"] else []
  {
  }

  lemma GroupsNext(num: seq<nat>, i: nat)
    requires DigitsOk(num) && 3 * i + 3 <= |num| <= 66
    ensures Groups(num, i + 1) == Groups(num, i) + Group(num[3*i], num[3*i+1], num[3*i+2], |num| / 3 - (i + 1))
  {
    hide Group;
  }

  /** What reading gives, or the first word that is no part of a number where only numbers are wanted. */
  datatype Answer = Illegal(word: string) | Legal(read: Read)

  /** i is the first word that is not taken as part of a number. */
  ghost predicate FirstOther(ws: seq<string>, i: nat) {
    i < |ws| && !Takes(ws, i) && forall j | 0 <= j < i :: Takes(ws, j)
  }

  method TextToNum(text: string, containsOnlyNumbers: bool) returns (a: Answer)
    ensures a.Illegal? ==> containsOnlyNumbers && exists i: nat :: FirstOther(Split(text), i) && a.word == Split(text)[i]
    ensures containsOnlyNumbers && a.Legal? ==> forall i | 0 <= i < |Split(text)| :: Takes(Split(text), i)
    ensures a.Legal? ==> a.read == ReadText(text)
  {
    hide Lookup, Str, Refuses, Next, Takes, Split, Lower;
    var words, reader := Split(text), Start();
    assert words[..0] == [];
    for i := 0 to |words|
      invariant reader == ReadAll(Start(), words[..i])
      invariant containsOnlyNumbers ==> forall j | 0 <= j < i :: Takes(words, j)
    {
      RefusesOthers(words, i);
      if containsOnlyNumbers && Refuses(reader, words[i]) {
        assert FirstOther(words, i);
        return Illegal(words[i]);
      }
      assert words[..i+1][..i] == words[..i];
      reader := Next(reader, words[i]);
    }
    assert words[..|words|] == words;
    a := Legal(Finish(reader));
  }

  lemma RefusesOthers(ws: seq<string>, i: nat)
    requires i < |ws|
    ensures Refuses(ReadAll(Start(), ws[..i]), ws[i]) <==> !Takes(ws, i)
  {
    hide ReadAll, Lookup, Str, Takes, Lower, Refuses;
    ReaderHolds(ws, i);
    NextTakes(ReadAll(Start(), ws[..i]), ws, i);
  }
}
