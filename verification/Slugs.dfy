/** Organisation slugs: the text normaliser and the search for an unused variant. */
module Slugs {
  import opened Decimal

  // ----- _slugify -----

  /** What Python's `str.lower`, `\w` and `\s` say about single characters. */
  datatype Alphabet = Alphabet(lower: char -> string, isWord: char -> bool, isSpace: char -> bool) {
    /** The facts about Unicode that the slug's properties rest on. */
    ghost predicate Sane()
    {
      && isWord('_') && !isWord('-') && !isSpace('-') && lower('-') == "-"
      && (forall c :: isWord(c) ==> !isSpace(c))
      && (forall c, d :: d in lower(c) ==> lower(d) == [d])
    }

    predicate IsSeparator(c: char) { isSpace(c) || c == '_' || c == '-' }

    predicate Allowed(c: char) { isWord(c) || isSpace(c) || c == '-' }
  }

  function Lower(a: Alphabet, s: string): string
  {
    if s == "" then "" else a.lower(s[0]) + Lower(a, s[1..])
  }

  function StripLeft(a: Alphabet, s: string): string
  {
    if s != "" && a.isSpace(s[0]) then StripLeft(a, s[1..]) else s
  }

  function StripRight(a: Alphabet, s: string): string
  {
    if s != "" && a.isSpace(s[|s| - 1]) then StripRight(a, s[..|s| - 1]) else s
  }

  /** `re.sub(r"[^\w\s-]", "", s)` */
  function Keep(a: Alphabet, s: string): string
  {
    if s == "" then "" else (if a.Allowed(s[0]) then [s[0]] else "") + Keep(a, s[1..])
  }

  /** `re.sub(r"[\s_-]+", "-", s)`, where `inRun` says that a run of separators has been opened. */
  function Collapse(a: Alphabet, s: string, inRun: bool): string
  {
    if s == "" then ""
    else if a.IsSeparator(s[0]) then (if inRun then "" else "-") + Collapse(a, s[1..], true)
    else [s[0]] + Collapse(a, s[1..], false)
  }

  function Slugify(a: Alphabet, name: string): string
  {
    var slug := StripRight(a, StripLeft(a, Lower(a, name)));
    var hyphened := Collapse(a, Keep(a, slug), false);
    if |hyphened| <= 80 then hyphened else hyphened[..80]
  }

  // ----- What slugs look like -----

  ghost predicate SlugChar(a: Alphabet, c: char)
  {
    c == '-' || (a.isWord(c) && c != '_' && a.lower(c) == [c])
  }

  predicate NoDoubleHyphen(s: string)
  {
    forall i | 0 <= i < |s| - 1 :: !(s[i] == '-' && s[i + 1] == '-')
  }

  ghost predicate IsSlug(a: Alphabet, s: string)
  {
    |s| <= 80 && (forall c <- s :: SlugChar(a, c)) && NoDoubleHyphen(s)
  }

  lemma {:induction false} LowerSettles(a: Alphabet, s: string)
    requires a.Sane()
    ensures forall c <- Lower(a, s) :: a.lower(c) == [c]
  {
    if s != "" { LowerSettles(a, s[1..]); }
  }

  lemma {:induction false} StripsKeepChars(a: Alphabet, s: string)
    ensures forall c <- StripLeft(a, s) :: c in s
    ensures forall c <- StripRight(a, s) :: c in s
    decreases |s|
  {
    if s != "" {
      StripsKeepChars(a, s[1..]);
      StripsKeepChars(a, s[..|s| - 1]);
    }
  }

  lemma {:induction false} KeepChars(a: Alphabet, s: string)
    ensures forall c <- Keep(a, s) :: c in s && a.Allowed(c)
  {
    if s != "" { KeepChars(a, s[1..]); }
  }

  lemma {:induction false} CollapseShape(a: Alphabet, s: string, inRun: bool)
    requires forall c <- s :: a.Allowed(c) && a.lower(c) == [c]
    ensures forall c <- Collapse(a, s, inRun) :: SlugChar(a, c)
    ensures NoDoubleHyphen(Collapse(a, s, inRun))
    ensures inRun ==> Collapse(a, s, inRun) == "" || Collapse(a, s, inRun)[0] != '-'
  {
    if s != "" {
      assert s[0] in s;
      CollapseShape(a, s[1..], true);
      CollapseShape(a, s[1..], false);
    }
  }

  /** Every result is a slug: at most 80 characters, lowercase word characters and single hyphens. */
  lemma SlugifyYieldsSlug(a: Alphabet, name: string)
    requires a.Sane()
    ensures IsSlug(a, Slugify(a, name))
  {
    var low := Lower(a, name);
    LowerSettles(a, name);
    StripsKeepChars(a, low);
    StripsKeepChars(a, StripLeft(a, low));
    var slug := StripRight(a, StripLeft(a, low));
    KeepChars(a, slug);
    CollapseShape(a, Keep(a, slug), false);
  }

  lemma {:induction false} SlugIsFixed(a: Alphabet, s: string)
    requires a.Sane() && (forall c <- s :: SlugChar(a, c)) && NoDoubleHyphen(s)
    ensures Lower(a, s) == s && StripLeft(a, s) == s && StripRight(a, s) == s && Keep(a, s) == s
    ensures Collapse(a, s, false) == s
    ensures (s == "" || s[0] != '-') ==> Collapse(a, s, true) == s
  {
    if s != "" {
      assert SlugChar(a, s[0]) && SlugChar(a, s[|s| - 1]);
      assert [s[0]] + s[1..] == s;
      SlugIsFixed(a, s[1..]);
      if s[0] == '-' && |s| > 1 {
        assert !(s[0] == '-' && s[0 + 1] == '-');
      }
    }
  }

  /** The slugs are exactly the fixed points, so normalising twice changes nothing. */
  lemma SlugifyFixes(a: Alphabet, s: string)
    requires a.Sane()
    ensures Slugify(a, s) == s <==> IsSlug(a, s)
    ensures Slugify(a, Slugify(a, s)) == Slugify(a, s)
  {
    SlugifyYieldsSlug(a, s);
    SlugIsFixed(a, Slugify(a, s));
    if IsSlug(a, s) { SlugIsFixed(a, s); }
  }

  // ----- Which slug a name gets -----

  /** A word: letters, digits and the like, without underscores. */
  predicate IsWordText(a: Alphabet, w: string)
  {
    w != "" && forall c <- w :: a.isWord(c) && c != '_'
  }

  /** What stands between words: white space, underscores and hyphens. */
  predicate IsGap(a: Alphabet, g: string)
  {
    g != "" && forall c <- g :: a.isSpace(c) || c == '_' || c == '-'
  }

  predicate IsBlank(a: Alphabet, s: string)
  {
    forall c <- s :: a.isSpace(c)
  }

  lemma {:induction false} LowerAppend(a: Alphabet, s: string, t: string)
    ensures Lower(a, s + t) == Lower(a, s) + Lower(a, t)
  {
    if s == "" {
      assert s + t == t;
    } else {
      assert (s + t)[1..] == s[1..] + t;
      LowerAppend(a, s[1..], t);
    }
  }

  lemma {:induction false} KeepAppend(a: Alphabet, s: string, t: string)
    ensures Keep(a, s + t) == Keep(a, s) + Keep(a, t)
  {
    if s == "" {
      assert s + t == t;
    } else {
      assert (s + t)[1..] == s[1..] + t;
      KeepAppend(a, s[1..], t);
    }
  }

  lemma {:induction false} KeepAll(a: Alphabet, s: string)
    requires forall c <- s :: a.isWord(c) || a.isSpace(c) || c == '-'
    ensures Keep(a, s) == s
  {
    if s != "" {
      KeepAll(a, s[1..]);
      assert s[0] in s && [s[0]] + s[1..] == s;
    }
  }

  lemma {:induction false} KeepNone(a: Alphabet, s: string)
    requires forall c <- s :: !a.isWord(c) && !a.isSpace(c) && c != '-'
    ensures Keep(a, s) == ""
  {
    if s != "" {
      KeepNone(a, s[1..]);
      assert s[0] in s;
    }
  }

  lemma {:induction false} CollapseWord(a: Alphabet, w: string, rest: string, inRun: bool)
    requires a.Sane() && IsWordText(a, w)
    ensures Collapse(a, w + rest, inRun) == w + Collapse(a, rest, false)
  {
    assert w[0] in w && (w + rest)[1..] == w[1..] + rest;
    if |w| > 1 {
      CollapseWord(a, w[1..], rest, false);
      assert [w[0]] + w[1..] == w;
    } else {
      assert w[1..] + rest == rest;
    }
  }

  lemma {:induction false} CollapseGap(a: Alphabet, g: string, rest: string, inRun: bool)
    requires IsGap(a, g)
    ensures Collapse(a, g + rest, inRun) == (if inRun then "" else "-") + Collapse(a, rest, true)
  {
    assert g[0] in g && (g + rest)[1..] == g[1..] + rest;
    if |g| > 1 {
      CollapseGap(a, g[1..], rest, true);
    } else {
      assert g[1..] + rest == rest;
    }
  }

  lemma {:induction false} StripLeftBlank(a: Alphabet, b: string, s: string)
    requires IsBlank(a, b) && (s == "" || !a.isSpace(s[0]))
    ensures StripLeft(a, b + s) == s
  {
    if b == "" {
      assert b + s == s;
    } else {
      assert b[0] in b && (b + s)[1..] == b[1..] + s;
      StripLeftBlank(a, b[1..], s);
    }
  }

  lemma {:induction false} StripRightBlank(a: Alphabet, s: string, b: string)
    requires IsBlank(a, b) && (s == "" || !a.isSpace(s[|s| - 1]))
    ensures StripRight(a, s + b) == s
    decreases |b|
  {
    if b == "" {
      assert s + b == s;
    } else {
      var t := s + b;
      assert b[|b| - 1] in b && t[|t| - 1] == b[|b| - 1] && t[..|t| - 1] == s + b[..|b| - 1];
      StripRightBlank(a, s, b[..|b| - 1]);
    }
  }

  /** The words w, ws[0], ws[1], ... with the gap gs[k] in front of ws[k]. */
  function Written(w: string, gs: seq<string>, ws: seq<string>): string
    requires |gs| == |ws|
    decreases |ws|
  {
    if ws == [] then w else w + gs[0] + Written(ws[0], gs[1..], ws[1..])
  }

  function Hyphened(w: string, ws: seq<string>): string
    decreases |ws|
  {
    if ws == [] then w else w + "-" + Hyphened(ws[0], ws[1..])
  }

  predicate IsText(a: Alphabet, w: string, gs: seq<string>, ws: seq<string>)
  {
    |gs| == |ws| && IsWordText(a, w) && (forall v <- ws :: IsWordText(a, v)) && (forall g <- gs :: IsGap(a, g))
  }

  lemma {:induction false} CollapseWritten(a: Alphabet, w: string, gs: seq<string>, ws: seq<string>, inRun: bool)
    requires a.Sane() && IsText(a, w, gs, ws)
    ensures Collapse(a, Written(w, gs, ws), inRun) == Hyphened(w, ws)
    decreases |ws|
  {
    if ws == [] {
      assert w + "" == w;
      CollapseWord(a, w, "", inRun);
    } else {
      var rest := Written(ws[0], gs[1..], ws[1..]);
      assert w + gs[0] + rest == w + (gs[0] + rest);
      CollapseWord(a, w, gs[0] + rest, inRun);
      CollapseGap(a, gs[0], rest, false);
      CollapseWritten(a, ws[0], gs[1..], ws[1..], true);
    }
  }

  lemma {:induction false} WrittenChars(a: Alphabet, w: string, gs: seq<string>, ws: seq<string>)
    requires a.Sane() && IsText(a, w, gs, ws)
    ensures var s := Written(w, gs, ws);
            s != "" && (forall c <- s :: a.isWord(c) || a.isSpace(c) || c == '-') && !a.isSpace(s[0]) && !a.isSpace(s[|s| - 1])
    decreases |ws|
  {
    assert w[0] in w && w[|w| - 1] in w;
    if ws != [] {
      WrittenChars(a, ws[0], gs[1..], ws[1..]);
      var rest := Written(ws[0], gs[1..], ws[1..]);
      assert IsGap(a, gs[0]);
      forall c <- w + gs[0] + rest ensures a.isWord(c) || a.isSpace(c) || c == '-' {
        assert c in w || c in gs[0] || c in rest;
      }
    }
  }

  /** A name whose lower-case form is words with gaps between them and white space around becomes those words, in
      full and in order, with one hyphen for each gap, cut to 80 characters. */
  lemma SlugOfWords(a: Alphabet, name: string, before: string, w: string, gs: seq<string>, ws: seq<string>, behind: string)
    requires a.Sane() && IsText(a, w, gs, ws) && IsBlank(a, before) && IsBlank(a, behind)
    requires Lower(a, name) == before + Written(w, gs, ws) + behind
    ensures Slugify(a, name) == if |Hyphened(w, ws)| <= 80 then Hyphened(w, ws) else Hyphened(w, ws)[..80]
  {
    var s := Written(w, gs, ws);
    WrittenChars(a, w, gs, ws);
    assert before + s + behind == before + (s + behind);
    StripLeftBlank(a, before, s + behind);
    StripRightBlank(a, s, behind);
    KeepAll(a, s);
    CollapseWritten(a, w, gs, ws, false);
  }

  lemma NothingToStrip(a: Alphabet, s: string)
    requires s != "" && !a.isSpace(s[0]) && !a.isSpace(s[|s| - 1])
    ensures StripRight(a, StripLeft(a, s)) == s
  {
  }

  lemma KeepSkips(a: Alphabet, s: string, other: string, t: string)
    requires forall c <- other :: !a.isWord(c) && !a.isSpace(c) && c != '-'
    ensures Keep(a, s + other + t) == Keep(a, s + t)
  {
    KeepAppend(a, s + other, t);
    KeepAppend(a, s, other);
    KeepAppend(a, s, t);
    KeepNone(a, other);
  }

  /** Any other character, such as punctuation, is dropped wherever it stands between the ends of the name. */
  lemma OtherCharactersDropped(a: Alphabet, name: string, plain: string, s: string, other: string, t: string)
    requires s != "" && t != "" && !a.isSpace(s[0]) && !a.isSpace(t[|t| - 1])
    requires forall c <- other :: !a.isWord(c) && !a.isSpace(c) && c != '-'
    requires Lower(a, name) == s + other + t && Lower(a, plain) == s + t
    ensures Slugify(a, name) == Slugify(a, plain)
  {
    NothingToStrip(a, s + other + t);
    NothingToStrip(a, s + t);
    KeepSkips(a, s, other, t);
  }

  // ----- The ASCII alphabet -----

  function AsciiLower(c: char): string
  {
    if 'A' <= c <= 'Z' then [(c as int + 32) as char] else [c]
  }

  const ASCII: Alphabet := Alphabet(
    AsciiLower,
    c => 'a' <= c <= 'z' || 'A' <= c <= 'Z' || '0' <= c <= '9' || c == '_',
    c => c == ' ' || 9 <= c as int <= 13 || 28 <= c as int <= 31)

  lemma AsciiIsSane()
    ensures ASCII.Sane()
  {
  }

  // ----- The search for an unused slug -----

  /** The slug that the k-th probe asks for. */
  function Candidate(base: string, k: nat): string
  {
    if k == 0 then base else base + "-" + Text(k)
  }

  lemma CandidateInjective(base: string, j: nat, k: nat)
    requires Candidate(base, j) == Candidate(base, k)
    ensures j == k
  {
    if j > 0 && k > 0 {
      assert Candidate(base, j)[|base| + 1..] == Text(j);
      assert Candidate(base, k)[|base| + 1..] == Text(k);
      TextInjective(j, k);
    }
  }

  /** If the first k candidates are all taken, there are at least k slugs in use. */
  lemma {:induction false} TakenBound(base: string, used: set<string>, k: nat)
    requires forall j | 0 <= j < k :: Candidate(base, j) in used
    ensures k <= |used|
    decreases k
  {
    if k > 0 {
      var last := Candidate(base, k - 1);
      forall j | 0 <= j < k - 1 ensures Candidate(base, j) in used - {last} {
        if Candidate(base, j) == last { CandidateInjective(base, j, k - 1); }
      }
      TakenBound(base, used - {last}, k - 1);
    }
  }

  /** The first candidate that is not in use, given that the first k are. */
  function FirstUnused(base: string, used: set<string>, k: nat): (slug: string)
    requires forall j | 0 <= j < k :: Candidate(base, j) in used
    ensures slug !in used
    ensures exists n: nat :: k <= n && slug == Candidate(base, n) && forall j | 0 <= j < n :: Candidate(base, j) in used
    decreases |used| - k
  {
    TakenBound(base, used, k);
    if Candidate(base, k) in used then
      TakenBound(base, used, k + 1);
      FirstUnused(base, used, k + 1)
    else
      Candidate(base, k)
  }

  /** The `while True` loop: it stops after at most |used| + 1 probes, at the first unused candidate. */
  method FreshSlug(base: string, used: set<string>) returns (slug: string, probes: nat)
    ensures slug == FirstUnused(base, used, 0)
    ensures 1 <= probes <= |used| + 1
  {
    slug := base;
    var counter := 1;
    probes := 0;
    TakenBound(base, used, 0);
    while true
      invariant counter == probes + 1
      invariant slug == Candidate(base, probes)
      invariant forall j | 0 <= j < probes :: Candidate(base, j) in used
      invariant FirstUnused(base, used, probes) == FirstUnused(base, used, 0)
      invariant probes <= |used|
      decreases |used| - probes
    {
      if slug !in used {
        probes := probes + 1;
        return;
      }
      TakenBound(base, used, probes + 1);
      probes := probes + 1;
      slug := base + "-" + Text(counter);
      counter := counter + 1;
    }
  }
}
