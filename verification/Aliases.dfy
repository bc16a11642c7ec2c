/** The camelCase alias of a snake_case field name. Letter case is that of ASCII. */
module Aliases {
  import opened Collections

  predicate IsLower(c: char) { 'a' <= c <= 'z' }

  predicate IsUpper(c: char) { 'A' <= c <= 'Z' }

  function ToUpper(c: char): char { if IsLower(c) then (c as int - 32) as char else c }

  function ToLower(c: char): char { if IsUpper(c) then (c as int + 32) as char else c }

  function LowerAll(w: string): string
  {
    if w == "" then "" else [ToLower(w[0])] + LowerAll(w[1..])
  }

  /** `word.capitalize()` */
  function Capitalize(w: string): string
  {
    if w == "" then "" else [ToUpper(w[0])] + LowerAll(w[1..])
  }

  function CapitalizeAll(words: seq<string>): string
  {
    if words == [] then "" else Capitalize(words[0]) + CapitalizeAll(words[1..])
  }

  /** The `alias_generator`. */
  function Alias(name: string): string
  {
    Split(name, '_')[0] + CapitalizeAll(Split(name, '_')[1..])
  }

  /** The way back: an upper-case letter opens a new word. */
  function Unalias(t: string): string
  {
    if t == "" then ""
    else (if IsUpper(t[0]) then ['_', ToLower(t[0])] else [t[0]]) + Unalias(t[1..])
  }

  // ----- The alias, read character by character -----

  datatype Place = InFirstWord | AtWordStart | InLaterWord

  function Walk(s: string, p: Place): string
  {
    if s == "" then ""
    else if s[0] == '_' then Walk(s[1..], AtWordStart)
    else match p
      case InFirstWord => [s[0]] + Walk(s[1..], InFirstWord)
      case AtWordStart => [ToUpper(s[0])] + Walk(s[1..], InLaterWord)
      case InLaterWord => [ToLower(s[0])] + Walk(s[1..], InLaterWord)
  }

  lemma {:induction false} WalkSplits(s: string, p: Place)
    ensures var first := Split(s, '_')[0];
            Walk(s, p) == (match p
                           case InFirstWord => first
                           case AtWordStart => Capitalize(first)
                           case InLaterWord => LowerAll(first)) + CapitalizeAll(Split(s, '_')[1..])
  {
    if s != "" {
      var rest := Split(s[1..], '_');
      WalkSplits(s[1..], AtWordStart);
      WalkSplits(s[1..], InFirstWord);
      WalkSplits(s[1..], InLaterWord);
      if s[0] == '_' {
        assert Split(s, '_')[1..] == rest;
      } else {
        assert Split(s, '_')[1..] == rest[1..] && Split(s, '_')[0] == [s[0]] + rest[0];
        assert Split(s, '_')[0][1..] == rest[0];
      }
    }
  }

  // ----- When the alias can be undone -----

  /** No upper-case letter, and every underscore is followed by a lower-case one. */
  predicate IsSnakeCase(s: string)
  {
    s == ""
    || (!IsUpper(s[0]) && (s[0] == '_' ==> |s| > 1 && IsLower(s[1])) && IsSnakeCase(s[1..]))
  }

  predicate FitsAt(s: string, p: Place)
  {
    IsSnakeCase(s) && (p == AtWordStart ==> s != "" && IsLower(s[0]))
  }

  function Opening(p: Place): string { if p == AtWordStart then "_" else "" }

  /** What Unalias makes of one character. */
  function Back(c: char): string { if IsUpper(c) then ['_', ToLower(c)] else [c] }

  lemma UnaliasHead(c: char, w: string)
    ensures Unalias([c] + w) == Back(c) + Unalias(w)
  {
    assert ([c] + w)[1..] == w;
  }

  lemma HeadsDiffer(x: string, v: string, c: char, t: string)
    requires |x| >= 1
    ensures x + v == [c] + t ==> x[0] == c
    ensures |x| == 1 && x[0] == c ==> (x + v == [c] + t <==> v == t)
  {
    if x + v == [c] + t { assert (x + v)[0] == ([c] + t)[0]; }
    if |x| == 1 && x[0] == c {
      assert (x + v)[1..] == v && ([c] + t)[1..] == t;
    }
  }

  lemma InsideStep(c: char, d: char, v: string, t: string)
    requires c != '_' && (d == c || d == ToLower(c))
    ensures Back(d) + v == [c] + t <==> !IsUpper(c) && v == t
  {
    HeadsDiffer(Back(d), v, c, t);
  }

  lemma StartStep(c: char, v: string, t: string)
    requires c != '_'
    ensures Back(ToUpper(c)) + v == "_" + ([c] + t) <==> IsLower(c) && v == t
  {
    var x := Back(ToUpper(c));
    HeadsDiffer(x, v, '_', [c] + t);
    if IsUpper(ToUpper(c)) {
      var y := [ToLower(ToUpper(c))];
      assert x + v == ['_'] + (y + v);
      HeadsDiffer(['_'], y + v, '_', [c] + t);
      HeadsDiffer(y, v, c, t);
    }
  }

  lemma {:induction false} UnaliasLength(s: string, p: Place)
    requires p != InFirstWord
    ensures |Unalias(Walk(s, p))| <= |s| + |Opening(p)|
  {
    if s != "" {
      UnaliasLength(s[1..], AtWordStart);
      UnaliasLength(s[1..], InLaterWord);
      if s[0] != '_' {
        UnaliasHead(if p == AtWordStart then ToUpper(s[0]) else ToLower(s[0]), Walk(s[1..], InLaterWord));
      }
    }
  }

  lemma {:induction false} WalkUndone(s: string, p: Place)
    ensures Unalias(Walk(s, p)) == Opening(p) + s <==> FitsAt(s, p)
  {
    if s != "" {
      var t := s[1..];
      assert s == [s[0]] + t;
      if s[0] == '_' {
        WalkUndone(t, AtWordStart);
        UnaliasLength(t, AtWordStart);
      } else if p == AtWordStart {
        WalkUndone(t, InLaterWord);
        UnaliasHead(ToUpper(s[0]), Walk(t, InLaterWord));
        StartStep(s[0], Unalias(Walk(t, InLaterWord)), t);
        assert "" + t == t;
      } else {
        var d := if p == InFirstWord then s[0] else ToLower(s[0]);
        WalkUndone(t, p);
        UnaliasHead(d, Walk(t, p));
        InsideStep(s[0], d, Unalias(Walk(t, p)), t);
        assert "" + t == t && "" + s == s;
      }
    }
  }

  /** A field name is recovered from its alias exactly if it is in snake case: no upper-case letter and
      a lower-case letter after each underscore. */
  lemma AliasUndoneIff(name: string)
    ensures Unalias(Alias(name)) == name <==> IsSnakeCase(name)
  {
    WalkSplits(name, InFirstWord);
    WalkUndone(name, InFirstWord);
    assert "" + name == name;
  }

  /** So different snake-case names never share an alias. */
  lemma AliasInjective(a: string, b: string)
    requires IsSnakeCase(a) && IsSnakeCase(b) && Alias(a) == Alias(b)
    ensures a == b
  {
    AliasUndoneIff(a);
    AliasUndoneIff(b);
  }

  /** Outside that domain they can: a digit after the underscore, or two underscores in a row. */
  lemma AliasClashes()
    ensures Alias("a_1") == Alias("a1") && Alias("a__b") == Alias("a_b")
  {
    WalkSplits("a_1", InFirstWord);
    WalkSplits("a1", InFirstWord);
    WalkSplits("a__b", InFirstWord);
    WalkSplits("a_b", InFirstWord);
    assert "a_1"[1..] == "_1" && "_1"[1..] == "1" && "1"[1..] == "" && "a1"[1..] == "1";
    assert "a__b"[1..] == "__b" && "__b"[1..] == "_b" && "_b"[1..] == "b" && "b"[1..] == "" && "a_b"[1..] == "_b";
  }

  // ----- What an alias looks like -----

  lemma {:induction false} SplitOne(w: string)
    requires '_' !in w
    ensures Split(w, '_') == [w]
  {
    if w != "" {
      SplitOne(w[1..]);
      assert [w[0]] + w[1..] == w;
    }
  }

  lemma {:induction false} SplitLast(s: string, w: string)
    requires '_' !in w
    ensures Split(s + "_" + w, '_') == Split(s, '_') + [w]
  {
    var t := s + "_" + w;
    if s == "" {
      assert t[1..] == w;
      SplitOne(w);
    } else {
      assert t[1..] == s[1..] + "_" + w;
      SplitLast(s[1..], w);
    }
  }

  lemma {:induction false} CapitalizeAppend(a: seq<string>, w: string)
    ensures CapitalizeAll(a + [w]) == CapitalizeAll(a) + Capitalize(w)
  {
    if a == [] {
      assert [] + [w] == [w] && [w][1..] == [];
    } else {
      assert (a + [w])[1..] == a[1..] + [w];
      CapitalizeAppend(a[1..], w);
    }
  }

  /** A name of one word is its own alias, and each further word is added to the alias without the underscore,
      its first letter in upper case and the others in lower case. */
  lemma AliasWordByWord(s: string, w: string)
    requires '_' !in w
    ensures Alias(w) == w
    ensures |Alias(s + "_" + w)| == |Alias(s)| + |w| && Alias(s) <= Alias(s + "_" + w)
    ensures forall k | 0 <= k < |w| ::
              Alias(s + "_" + w)[|Alias(s)| + k]
              == if k == 0 && 'a' <= w[k] <= 'z' then (w[k] as int - 32) as char
                 else if k > 0 && 'A' <= w[k] <= 'Z' then (w[k] as int + 32) as char
                 else w[k]
  {
    SplitOne(w);
    AliasAppend(s, w);
    CapitalizeAt(w);
  }

  lemma AliasAppend(s: string, w: string)
    requires '_' !in w
    ensures Alias(s + "_" + w) == Alias(s) + Capitalize(w)
  {
    SplitLast(s, w);
    var words := Split(s, '_');
    assert (words + [w])[0] == words[0] && (words + [w])[1..] == words[1..] + [w];
    CapitalizeAppend(words[1..], w);
  }

  lemma CapitalizeAt(w: string)
    ensures |Capitalize(w)| == |w|
    ensures forall k | 0 <= k < |w| :: Capitalize(w)[k] == if k == 0 then ToUpper(w[k]) else ToLower(w[k])
  {
    if w != "" { LowerAllAt(w[1..]); }
  }

  lemma {:induction false} LowerAllAt(w: string)
    ensures |LowerAll(w)| == |w|
    ensures forall k | 0 <= k < |w| :: LowerAll(w)[k] == ToLower(w[k])
  {
    if w != "" { LowerAllAt(w[1..]); }
  }
}
