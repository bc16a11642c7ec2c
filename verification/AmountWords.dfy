/** Amounts in the lease agreement: English words as `number_to_words` prints them, proved
    against a reader of English number words that knows nothing of the printer. */
module AmountWords {
  import opened Collections
  import opened EnglishNumbers

  // ----- The vocabulary -----

  const ONES: seq<string> := [
    "", "One", "Two", "Three", "Four", "Five", "Six", "Seven", "Eight", "Nine",
    "Ten", "Eleven", "Twelve", "Thirteen", "Fourteen", "Fifteen", "Sixteen",
    "Seventeen", "Eighteen", "Nineteen"]

  const TENS: seq<string> := ["", "", "Twenty", "Thirty", "Forty", "Fifty", "Sixty", "Seventy", "Eighty", "Ninety"]

  function Spell(w: Word): string
  {
    match w
    case Unit(n) => ONES[n]
    case Tens(t) => TENS[t]
    case Hundred => "Hundred"
    case Thousand => "Thousand"
    case Million => "Million"
    case Billion => "Billion"
    case Zero => "Zero"
  }

  lemma SpellShape(w: Word)
    ensures |Spell(w)| >= 3
    ensures ' ' !in Spell(w)
  {
  }

  /** No two words of the vocabulary are spelled alike. */
  lemma SpellInjective(a: Word, b: Word)
    requires Spell(a) == Spell(b)
    ensures a == b
  {
    SpellShape(a);
    SpellShape(b);
    assert Spell(a)[0] == Spell(b)[0];
    assert Spell(a)[1] == Spell(b)[1];
    assert Spell(a)[2] == Spell(b)[2];
  }

  // ----- Printing -----

  /** `" ".join(words)` */
  function Join(words: seq<string>): string
  {
    if words == [] then ""
    else if |words| == 1 then words[0]
    else words[0] + " " + Join(words[1..])
  }

  /** `_three_to_words` */
  function ThreeToWords(n: nat): string
    requires n < 1000
  {
    if n == 0 then ""
    else if n < 20 then ONES[n]
    else if n < 100 then TENS[n / 10] + (if n % 10 == 0 then "" else " " + ONES[n % 10])
    else
      var rest := ThreeToWords(n % 100);
      ONES[n / 100] + " Hundred" + (if rest != "" then " " + rest else "")
  }

  const GROUPS: seq<(nat, string)> := [(1_000_000_000, "Billion"), (1_000_000, "Million"), (1_000, "Thousand"), (1, "")]

  function Chunk(n: nat, divisor: nat): nat
    requires divisor > 0
  {
    if divisor > 1 then (n % (divisor * 1000)) / divisor else n % 1000
  }

  function Part(chunk: nat, suffix: string): string
    requires chunk < 1000
  {
    ThreeToWords(chunk) + if suffix != "" then " " + suffix else ""
  }

  // ----- The same text as a list of words -----

  function Spelled(ws: seq<Word>): seq<string>
  {
    seq(|ws|, i requires 0 <= i < |ws| => Spell(ws[i]))
  }

  function ThreeWords(n: nat): seq<Word>
    requires n < 1000
  {
    if n == 0 then []
    else if n < 20 then [Unit(n)]
    else if n < 100 then [Tens(n / 10)] + (if n % 10 == 0 then [] else [Unit(n % 10)])
    else [Unit(n / 100), Hundred] + ThreeWords(n % 100)
  }

  function ScaleWord(i: nat): seq<Word>
    requires i < 4
  {
    if i == 0 then [Billion] else if i == 1 then [Million] else if i == 2 then [Thousand] else []
  }

  function GroupWords(n: nat, i: nat): seq<Word>
    requires i < 4
  {
    var chunk := Chunk(n, GROUPS[i].0);
    ChunkIsGroup(n, GROUPS[i].0);
    if chunk == 0 then [] else ThreeWords(chunk) + ScaleWord(i)
  }

  /** The words of the first i groups. */
  function Words(n: nat, i: nat): seq<Word>
    requires i <= 4
  {
    if i == 0 then [] else Words(n, i - 1) + GroupWords(n, i - 1)
  }

  lemma {:induction false} JoinAppend(a: seq<string>, b: seq<string>)
    requires a != [] && b != []
    ensures Join(a + b) == Join(a) + " " + Join(b)
  {
    if |a| == 1 {
      assert (a + b)[1..] == b;
    } else {
      assert (a + b)[1..] == a[1..] + b;
      JoinAppend(a[1..], b);
    }
  }

  lemma SpelledAppend(a: seq<Word>, b: seq<Word>)
    ensures Spelled(a + b) == Spelled(a) + Spelled(b)
    ensures a != [] && b != [] ==> Join(Spelled(a + b)) == Join(Spelled(a)) + " " + Join(Spelled(b))
  {
    assert Spelled(a + b) == Spelled(a) + Spelled(b);
    if a != [] && b != [] { JoinAppend(Spelled(a), Spelled(b)); }
  }

  lemma JoinOne(w: Word)
    ensures Join(Spelled([w])) == Spell(w)
  {
    assert Spelled([w]) == [Spell(w)];
  }

  lemma TensSpelled(t: TensNumber, u: nat)
    requires u < 10
    ensures Join(Spelled([Tens(t)] + (if u == 0 then [] else [Unit(u)]))) == TENS[t] + (if u == 0 then "" else " " + ONES[u])
    ensures Join(Spelled([Tens(t)] + (if u == 0 then [] else [Unit(u)]))) != ""
  {
    JoinOne(Tens(t));
    SpellShape(Tens(t));
    if u == 0 {
      assert [Tens(t)] + [] == [Tens(t)];
    } else {
      JoinOne(Unit(u));
      SpelledAppend([Tens(t)], [Unit(u)]);
    }
  }

  /** Below one hundred. */
  lemma TwoSpelled(n: nat)
    requires n < 100
    ensures ThreeToWords(n) == Join(Spelled(ThreeWords(n)))
    ensures n > 0 ==> ThreeWords(n) != [] && ThreeToWords(n) != ""
  {
    if n == 0 {
    } else if n < 20 {
      JoinOne(Unit(n));
      SpellShape(Unit(n));
    } else {
      TensSpelled(n / 10, n % 10);
    }
  }

  lemma HundredSpelled(h: UnitNumber)
    ensures Join(Spelled([Unit(h), Hundred])) == ONES[h] + " Hundred"
  {
    JoinOne(Unit(h));
    JoinOne(Hundred);
    SpelledAppend([Unit(h)], [Hundred]);
    assert [Unit(h)] + [Hundred] == [Unit(h), Hundred];
  }

  lemma SpelledThen(a: seq<Word>, b: seq<Word>)
    requires a != []
    ensures Join(Spelled(a + b)) == Join(Spelled(a)) + if b != [] then " " + Join(Spelled(b)) else ""
  {
    if b == [] {
      assert a + b == a;
    } else {
      SpelledAppend(a, b);
    }
  }

  lemma HundredsSpelled(h: UnitNumber, r: nat)
    requires r < 100
    ensures Join(Spelled([Unit(h), Hundred] + ThreeWords(r)))
            == ONES[h] + " Hundred" + (if ThreeToWords(r) != "" then " " + ThreeToWords(r) else "")
  {
    TwoSpelled(r);
    HundredSpelled(h);
    SpelledThen([Unit(h), Hundred], ThreeWords(r));
  }

  lemma ThreeSpelled(n: nat)
    requires n < 1000
    ensures ThreeToWords(n) == Join(Spelled(ThreeWords(n)))
    ensures n > 0 ==> ThreeWords(n) != []
  {
    if n < 100 {
      TwoSpelled(n);
    } else {
      HundredsSpelled(n / 100, n % 100);
    }
  }

  lemma ScaleSpelled(i: nat)
    requires i < 3
    ensures |ScaleWord(i)| == 1 && Spell(ScaleWord(i)[0]) == Join(Spelled(ScaleWord(i))) == GROUPS[i].1
  {
    JoinOne(ScaleWord(i)[0]);
    assert ScaleWord(i) == [ScaleWord(i)[0]];
  }

  lemma PartSpelled(chunk: nat, i: nat)
    requires 0 < chunk < 1000 && i < 4
    ensures Part(chunk, GROUPS[i].1) == Join(Spelled(ThreeWords(chunk) + ScaleWord(i)))
    ensures ThreeWords(chunk) + ScaleWord(i) != []
  {
    ThreeSpelled(chunk);
    SpelledThen(ThreeWords(chunk), ScaleWord(i));
    if i < 3 {
      ScaleSpelled(i);
      SpellShape(ScaleWord(i)[0]);
    }
  }

  // ----- Splitting a number into groups of three digits -----

  lemma ScaledApart(t: int, d: int)
    requires d > 0
    ensures t >= 1 ==> t * d >= d
    ensures t <= -1 ==> t * d <= -d
  {
    if t >= 1 {
      assert (t - 1) * d >= 0;
    } else if t <= -1 {
      assert (t + 1) * d <= 0;
    }
  }

  lemma DivModUnique(q: int, r: int, x: int, d: nat)
    requires 0 <= r < d && x == q * d + r
    ensures x / d == q && x % d == r
  {
    var k, m := x / d, x % d;
    assert (q - k) * d == m - r;
    ScaledApart(q - k, d);
  }

  lemma GroupParts(n: int, d: nat, a: int, m: int, c: int, r: int)
    requires n == a * (1000 * d) + m && m == c * d + r
    ensures n == (1000 * a + c) * d + r
    ensures n - c * d == (1000 * a) * d + r
  {
  }

  lemma Below(c: int, d: nat, m: int)
    requires d > 0 && c * d <= m < 1000 * d
    ensures c < 1000
  {
    ScaledApart(c - 999, d);
    assert (c - 999) * d == c * d - 999 * d;
  }

  lemma DivMod(x: nat, d: nat)
    requires d > 0
    ensures x == x / d * d + x % d && x / d >= 0 && 0 <= x % d < d
  {
  }

  lemma GroupWith(n: nat, d: nat, a: nat, m: nat, c: nat, r: nat)
    requires n == a * (1000 * d) + m && m == c * d + r && r < d && m < 1000 * d
    ensures n % d == r && n - c * d >= 0 && (n - c * d) % d == r && c < 1000
  {
    GroupParts(n, d, a, m, c, r);
    DivModUnique(1000 * a + c, r, n, d);
    DivModUnique(1000 * a, r, n - c * d, d);
    Below(c, d, m);
  }

  lemma GroupOf(n: nat, d: nat)
    requires d > 0
    ensures 0 <= n % (1000 * d) / d < 1000
    ensures n - n % (1000 * d) / d * d >= 0
    ensures (n - n % (1000 * d) / d * d) % d == n % d
    ensures n % (1000 * d) == n % (1000 * d) / d * d + n % d
  {
    var w := 1000 * d;
    var m := n % w;
    DivMod(n, w);
    DivMod(m, d);
    GroupWith(n, d, n / w, m, m / d, m % d);
  }

  lemma ChunkIsGroup(n: nat, d: nat)
    requires d > 0
    ensures Chunk(n, d) == n % (1000 * d) / d < 1000
  {
    GroupOf(n, d);
  }

  /** What is left of n0 when the groups before the i-th have been taken off. */
  predicate Left(n: nat, n0: nat, i: nat)
    requires i <= 4
  {
    i < 4 ==> n % (1000 * GROUPS[i].0) == n0 % (1000 * GROUPS[i].0)
  }

  /** Taking group i off leaves the lower groups as they were. */
  lemma ChunksLeft(n: nat, n0: nat, i: nat)
    requires i < 4 && Left(n, n0, i)
    ensures Chunk(n, GROUPS[i].0) == Chunk(n0, GROUPS[i].0) < 1000
    ensures n - Chunk(n, GROUPS[i].0) * GROUPS[i].0 >= 0
    ensures Left(n - Chunk(n, GROUPS[i].0) * GROUPS[i].0, n0, i + 1)
  {
    var d := GROUPS[i].0;
    ChunkIsGroup(n, d);
    ChunkIsGroup(n0, d);
    GroupOf(n, d);
    GroupOf(n0, d);
    assert i < 3 ==> 1000 * GROUPS[i + 1].0 == d;
  }

  /** The text that `number_to_words` produces. */
  function Text(n: nat): string
  {
    if n == 0 then Spell(Zero) else Join(Spelled(Words(n, 4)))
  }

  predicate TextSoFar(parts: seq<string>, n: nat, i: nat)
    requires i <= 4
  {
    (parts == [] <==> Words(n, i) == []) && Join(parts) == Join(Spelled(Words(n, i)))
  }

  /** One round of the loop, on the text so far. */
  lemma PartAdded(parts: seq<string>, n: nat, i: nat)
    requires i < 4 && TextSoFar(parts, n, i)
    ensures Chunk(n, GROUPS[i].0) < 1000
    ensures var chunk := Chunk(n, GROUPS[i].0);
            TextSoFar(if chunk != 0 then parts + [Part(chunk, GROUPS[i].1)] else parts, n, i + 1)
  {
    var chunk := Chunk(n, GROUPS[i].0);
    ChunkIsGroup(n, GROUPS[i].0);
    assert Words(n, i + 1) == Words(n, i) + GroupWords(n, i);
    if chunk != 0 {
      PartSpelled(chunk, i);
      assert Join([Part(chunk, GROUPS[i].1)]) == Join(Spelled(GroupWords(n, i)));
      if parts != [] {
        JoinAppend(parts, [Part(chunk, GROUPS[i].1)]);
        SpelledAppend(Words(n, i), GroupWords(n, i));
      } else {
        assert parts + [Part(chunk, GROUPS[i].1)] == [Part(chunk, GROUPS[i].1)];
        assert Words(n, i) + GroupWords(n, i) == GroupWords(n, i);
      }
    } else {
      assert Words(n, i) + [] == Words(n, i);
    }
  }

  /** After i groups: what is left of the number, and the text so far. */
  predicate Progress(parts: seq<string>, n: nat, n0: nat, i: nat)
    requires i <= 4
  {
    Left(n, n0, i) && TextSoFar(parts, n0, i)
  }

  lemma NoGroupsYet(n: nat)
    ensures Progress([], n, n, 0)
  {
  }

  /** The text and the number after one round of the loop. */
  function NextParts(parts: seq<string>, n: nat, i: nat): seq<string>
    requires i < 4
  {
    var (divisor, suffix) := GROUPS[i];
    ChunkIsGroup(n, divisor);
    if Chunk(n, divisor) != 0 then parts + [Part(Chunk(n, divisor), suffix)] else parts
  }

  function NextNumber(n: nat, i: nat): nat
    requires i < 4
  {
    GroupOf(n, GROUPS[i].0);
    ChunkIsGroup(n, GROUPS[i].0);
    n - Chunk(n, GROUPS[i].0) * GROUPS[i].0
  }

  lemma Round(parts: seq<string>, n: nat, n0: nat, i: nat)
    requires i < 4 && Progress(parts, n, n0, i)
    ensures Progress(NextParts(parts, n, i), NextNumber(n, i), n0, i + 1)
  {
    ChunksLeft(n, n0, i);
    PartAdded(parts, n0, i);
  }

  lemma AllParts(parts: seq<string>, n: nat, n0: nat)
    requires n0 != 0 && Progress(parts, n, n0, 4)
    ensures Join(parts) == Text(n0)
  {
  }

  /** `number_to_words`, on the non-negative amounts it is documented for. */
  method NumberToWords(x: real) returns (text: string)
    requires x >= 0.0
    ensures text == Text(x.Floor)
    ensures Parse(text) == Some(x.Floor % 1_000_000_000_000)
  {
    var n: nat := x.Floor;
    WordsDenote(n);
    if n == 0 {
      return "Zero";
    }
    ghost var n0 := n;
    var parts: seq<string> := [];
    NoGroupsYet(n);
    for i := 0 to 4
      invariant Progress(parts, n, n0, i)
    {
      Round(parts, n, n0, i);
      parts, n := AddGroup(parts, n, i);
    }
    AllParts(parts, n, n0);
    text := Join(parts);
  }

  /** The body of the loop for one group. */
  method AddGroup(parts: seq<string>, n: nat, i: nat) returns (more: seq<string>, rest: nat)
    requires i < 4
    ensures more == NextParts(parts, n, i) && rest == NextNumber(n, i)
  {
    var (divisor, suffix) := GROUPS[i];
    GroupOf(n, divisor);
    ChunkIsGroup(n, divisor);
    var chunk := Chunk(n, divisor);
    more := if chunk != 0 then parts + [Part(chunk, suffix)] else parts;
    rest := n - chunk * divisor;
  }

  // ----- Reading the text back -----

  lemma {:induction false} SplitWord(w: string)
    requires ' ' !in w
    ensures Split(w, ' ') == [w]
  {
    if w != "" {
      SplitWord(w[1..]);
      assert [w[0]] + w[1..] == w;
    }
  }

  lemma {:induction false} SplitFirst(w: string, s: string)
    requires ' ' !in w
    ensures Split(w + " " + s, ' ') == [w] + Split(s, ' ')
  {
    var t := w + " " + s;
    if w == "" {
      assert t[1..] == s;
    } else {
      assert t[1..] == w[1..] + " " + s;
      SplitFirst(w[1..], s);
      assert ([w[1..]] + Split(s, ' '))[1..] == Split(s, ' ');
      assert [w[0]] + w[1..] == w;
    }
  }

  /** Splitting at spaces undoes joining with spaces. */
  lemma {:induction false} SplitJoin(ss: seq<string>)
    requires ss != [] && forall s <- ss :: ' ' !in s
    ensures Split(Join(ss), ' ') == ss
  {
    if |ss| == 1 {
      SplitWord(ss[0]);
    } else {
      SplitJoin(ss[1..]);
      SplitFirst(ss[0], Join(ss[1..]));
    }
  }

  /** The reader's lexicon has every word of the printer, with its own meaning. */
  lemma LexiconSpells(i: nat)
    requires i < |LEXICON|
    ensures LEXICON[i].0 == Spell(LEXICON[i].1)
  {
    assert |LEXICON| == 32;
    match LEXICON[i].1
    case Unit(n) => assert i == n - 1;
    case Tens(t) => assert i == t + 17;
    case Hundred => case Thousand => case Million => case Billion => case Zero =>
  }

  lemma InLexicon(w: Word)
    ensures exists i :: 0 <= i < |LEXICON| && LEXICON[i].1 == w
  {
    match w
    case Unit(n) => assert LEXICON[n - 1].1 == w;
    case Tens(t) => assert LEXICON[t + 17].1 == w;
    case Hundred => assert LEXICON[27].1 == w;
    case Thousand => assert LEXICON[28].1 == w;
    case Million => assert LEXICON[29].1 == w;
    case Billion => assert LEXICON[30].1 == w;
    case Zero => assert LEXICON[31].1 == w;
  }

  lemma {:induction false} FindSpelled(w: Word, k: nat)
    requires exists i :: k <= i < |LEXICON| && LEXICON[i].1 == w
    ensures Find(Spell(w), LEXICON[k..]) == Some(w)
    decreases |LEXICON| - k
  {
    var rest := LEXICON[k..];
    LexiconSpells(k);
    if rest[0].0 == Spell(w) {
      SpellInjective(rest[0].1, w);
    } else {
      assert rest[1..] == LEXICON[k + 1..];
      FindSpelled(w, k + 1);
    }
  }

  lemma {:induction false} RecogniseSpelled(ws: seq<Word>)
    ensures Recognise(Spelled(ws)) == Some(ws)
  {
    if ws != [] {
      assert Spelled(ws)[1..] == Spelled(ws[1..]);
      RecogniseSpelled(ws[1..]);
      InLexicon(ws[0]);
      FindSpelled(ws[0], 0);
      assert LEXICON[0..] == LEXICON;
      assert [ws[0]] + ws[1..] == ws;
    }
  }

  lemma {:induction false} JoinNotEmpty(ws: seq<Word>)
    requires ws != []
    ensures Join(Spelled(ws)) != ""
  {
    SpellShape(ws[0]);
  }

  /** The reader recovers the word list from the text. */
  lemma ParseSpelled(ws: seq<Word>)
    ensures Parse(Join(Spelled(ws))) == if ws == [Zero] then Some(0) else Read(START, ws)
  {
    if ws != [] {
      JoinNotEmpty(ws);
      forall s <- Spelled(ws) ensures ' ' !in s {
        var i :| 0 <= i < |ws| && s == Spell(ws[i]);
        SpellShape(ws[i]);
      }
      SplitJoin(Spelled(ws));
      RecogniseSpelled(ws);
    }
  }

  // ----- The words denote the number -----

  /** Where a group stands when n < 100 has been read on top of it. */
  function AfterTwo(r: Reading, n: nat): Reading
  {
    if n == 0 then r
    else
      r.(group := r.group + n,
         place := if n <= 9 && r.place == Fresh then Digit else if n >= 20 && n % 10 == 0 then Decade else Full)
  }

  lemma ReadTwo(r: Reading, n: nat, rest: seq<Word>)
    requires n < 100 && (r.place == Fresh || r.place == Hundreds)
    ensures Read(r, ThreeWords(n) + rest) == Read(AfterTwo(r, n), rest)
  {
    var ws := ThreeWords(n) + rest;
    if n == 0 {
      assert ws == rest;
    } else if n < 20 || n % 10 == 0 {
      assert ws[1..] == rest;
    } else {
      assert ws[1..] == [Unit(n % 10)] + rest;
      assert ([Unit(n % 10)] + rest)[1..] == rest;
    }
  }

  function AfterThree(r: Reading, n: nat): Reading
  {
    if n < 100 then AfterTwo(r, n) else AfterTwo(r.(group := n / 100 * 100, place := Hundreds), n % 100)
  }

  lemma ReadThree(r: Reading, n: nat, rest: seq<Word>)
    requires n < 1000 && r.place == Fresh && r.group == 0
    ensures Read(r, ThreeWords(n) + rest) == Read(AfterThree(r, n), rest)
    ensures AfterThree(r, n).group == n && (n > 0 ==> AfterThree(r, n).place != Fresh)
    ensures AfterThree(r, n).total == r.total && AfterThree(r, n).limit == r.limit
  {
    if n < 100 {
      ReadTwo(r, n, rest);
    } else {
      var ws := ThreeWords(n) + rest;
      assert ws[1..] == [Hundred] + (ThreeWords(n % 100) + rest);
      assert ws[1..][1..] == ThreeWords(n % 100) + rest;
      ReadTwo(r.(group := n / 100 * 100, place := Hundreds), n % 100, rest);
    }
  }

  /** The reading after the group i (0 for billions) of n. */
  function AfterGroup(r: Reading, n: nat, i: nat): Reading
    requires i < 3
  {
    ChunkIsGroup(n, GROUPS[i].0);
    if Chunk(n, GROUPS[i].0) == 0 then r
    else Reading(r.total + Chunk(n, GROUPS[i].0) * GROUPS[i].0, 0, Fresh, 3 - i)
  }

  lemma ReadGroup(r: Reading, n: nat, i: nat, rest: seq<Word>)
    requires i < 3 && r.place == Fresh && r.group == 0 && r.limit > 3 - i
    ensures Read(r, GroupWords(n, i) + rest) == Read(AfterGroup(r, n, i), rest)
  {
    var chunk := Chunk(n, GROUPS[i].0);
    ChunkIsGroup(n, GROUPS[i].0);
    if chunk == 0 {
      assert GroupWords(n, i) + rest == rest;
    } else {
      assert GroupWords(n, i) + rest == ThreeWords(chunk) + (ScaleWord(i) + rest);
      ReadThree(r, chunk, ScaleWord(i) + rest);
      assert (ScaleWord(i) + rest)[1..] == rest;
    }
  }

  lemma ReadLastGroup(r: Reading, n: nat)
    requires r.place == Fresh && r.group == 0
    ensures Read(r, GroupWords(n, 3)) == Some(r.total + Chunk(n, 1))
  {
    ChunkIsGroup(n, 1);
    if Chunk(n, 1) != 0 {
      ReadThree(r, Chunk(n, 1), []);
      assert GroupWords(n, 3) == ThreeWords(Chunk(n, 1)) + [];
    }
  }

  lemma ChunksAddUp(n: nat)
    ensures Chunk(n, 1_000_000_000) * 1_000_000_000 + Chunk(n, 1_000_000) * 1_000_000 + Chunk(n, 1_000) * 1_000 + Chunk(n, 1)
            == n % 1_000_000_000_000
  {
    ChunkIsGroup(n, 1_000_000_000);
    ChunkIsGroup(n, 1_000_000);
    ChunkIsGroup(n, 1_000);
    GroupOf(n, 1_000_000_000);
    GroupOf(n, 1_000_000);
    GroupOf(n, 1_000);
  }

  lemma FlattenFour(a: seq<Word>, b: seq<Word>, c: seq<Word>, d: seq<Word>)
    ensures [] + a + b + c + d == a + (b + (c + d))
  {
  }

  lemma WordsFlat(n: nat)
    ensures Words(n, 4) == GroupWords(n, 0) + (GroupWords(n, 1) + (GroupWords(n, 2) + GroupWords(n, 3)))
  {
    assert Words(n, 1) == [] + GroupWords(n, 0);
    assert Words(n, 2) == [] + GroupWords(n, 0) + GroupWords(n, 1);
    assert Words(n, 3) == Words(n, 2) + GroupWords(n, 2);
    assert Words(n, 4) == Words(n, 2) + GroupWords(n, 2) + GroupWords(n, 3);
    FlattenFour(GroupWords(n, 0), GroupWords(n, 1), GroupWords(n, 2), GroupWords(n, 3));
  }

  /** The reading after the groups above the last. */
  function UpperGroups(n: nat): Reading
  {
    AfterGroup(AfterGroup(AfterGroup(START, n, 0), n, 1), n, 2)
  }

  lemma ReadUpperGroups(n: nat)
    ensures Read(START, Words(n, 4)) == Read(UpperGroups(n), GroupWords(n, 3))
  {
    var r1 := AfterGroup(START, n, 0);
    WordsFlat(n);
    ReadGroup(START, n, 0, GroupWords(n, 1) + (GroupWords(n, 2) + GroupWords(n, 3)));
    ReadGroup(r1, n, 1, GroupWords(n, 2) + GroupWords(n, 3));
    ReadGroup(AfterGroup(r1, n, 1), n, 2, GroupWords(n, 3));
  }

  lemma ReadWords(n: nat)
    ensures Read(START, Words(n, 4)) == Some(n % 1_000_000_000_000)
  {
    ReadUpperGroups(n);
    ReadLastGroup(UpperGroups(n), n);
    ChunksAddUp(n);
  }

  /** The text of an amount denotes that amount, modulo 10^12. */
  lemma WordsDenote(n: nat)
    ensures Parse(Text(n)) == Some(n % 1_000_000_000_000)
  {
    if n == 0 {
      JoinOne(Zero);
      ParseSpelled([Zero]);
    } else {
      ParseSpelled(Words(n, 4));
      ReadWords(n);
    }
  }

  lemma SmallMod(n: nat, k: nat)
    requires n < k
    ensures n % k == n
  {
  }

  lemma WordsDenoteExactly(n: nat)
    requires n < 1_000_000_000_000
    ensures Parse(Text(n)) == Some(n)
  {
    SmallMod(n, 1_000_000_000_000);
    WordsDenote(n);
  }

  /** Two amounts below 10^12 never share a wording. */
  lemma WordsInjective(m: nat, n: nat)
    requires m < 1_000_000_000_000 && n < 1_000_000_000_000
    requires Text(m) == Text(n)
    ensures m == n
  {
    WordsDenoteExactly(m);
    WordsDenoteExactly(n);
  }

  /** 10^12 itself is worded as the empty string. */
  lemma TrillionHasNoWords()
    ensures Text(1_000_000_000_000) == ""
  {
    var n := 1_000_000_000_000;
    assert Chunk(n, 1_000_000_000) == 0 && Chunk(n, 1_000_000) == 0 && Chunk(n, 1_000) == 0 && Chunk(n, 1) == 0;
    assert Words(n, 2) == [];
    assert Words(n, 4) == [];
  }
}
