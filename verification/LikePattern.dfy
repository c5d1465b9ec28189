/** SQL's LIKE with the default escape character, and when a text matches a pattern made from one of its own words. */
module LikePattern {
  import opened Wrappers

  const ESCAPE: char := '\\'

  /** `%` stands for any text, `_` for any character, and the escape makes the next character literal. */
  predicate Like(s: string, p: string)
    decreases |s| + |p|
  {
    if p == [] then s == []
    else if p[0] == '%' then Like(s, p[1..]) || (s != [] && Like(s[1..], p))
    else if s == [] then false
    else if p[0] == '_' then Like(s[1..], p[1..])
    else if p[0] == ESCAPE then |p| > 1 && s[0] == p[1] && Like(s[1..], p[2..])
    else s[0] == p[0] && Like(s[1..], p[1..])
  }

  function Around(word: string): string {
    "%" + word + "%"
  }

  predicate NoEscape(word: string) {
    ESCAPE !in word
  }

  lemma {:induction false} PercentMatchesAll(s: string)
    ensures Like(s, "%")
  {
    if s != [] {
      PercentMatchesAll(s[1..]);
    } else {
      assert "%"[1..] == [];
    }
  }

  /**
    A word without escapes, read as a pattern, matches itself: each wildcard in it matches at least its own character.
  */
  lemma {:induction false} WordMatchesItself(word: string, rest: string)
    requires NoEscape(word)
    ensures Like(word + rest, word + "%")
  {
    if word == [] {
      assert word + rest == rest && word + "%" == "%";
      PercentMatchesAll(rest);
    } else {
      var tail := word[1..];
      WordMatchesItself(tail, rest);
      assert (word + rest)[1..] == tail + rest && (word + "%")[1..] == tail + "%";
      if word[0] == '%' {
        assert Like(tail + rest, word + "%");
      }
    }
  }

  lemma {:induction false} PercentSkipsPrefix(prefix: string, s: string, p: string)
    requires Like(s, p)
    ensures Like(prefix + s, "%" + p)
  {
    if prefix == [] {
      assert prefix + s == s && ("%" + p)[1..] == p;
    } else {
      PercentSkipsPrefix(prefix[1..], s, p);
      assert (prefix + s)[1..] == prefix[1..] + s;
    }
  }

  /** Any text that contains an escape-free word matches the pattern built around the word. */
  lemma ContainedWordMatches(prefix: string, word: string, suffix: string)
    requires NoEscape(word)
    ensures Like(prefix + word + suffix, Around(word))
  {
    WordMatchesItself(word, suffix);
    PercentSkipsPrefix(prefix, word + suffix, word + "%");
    assert prefix + word + suffix == prefix + (word + suffix);
    assert Around(word) == "%" + (word + "%");
  }

  // ---------- Words with escapes ----------

  /** The last escape of the word escapes nothing in it, so it would escape what follows. */
  predicate Dangling(word: string) {
    word != [] && if word[0] == ESCAPE then |word| == 1 || Dangling(word[2..]) else Dangling(word[1..])
  }

  /** What the word asks for, character by character: a literal character, or None where the wildcard "_" allows any. */
  function Tokens(word: string): seq<Option<char>> {
    if word == [] then []
    else if word[0] == ESCAPE then if |word| == 1 then [] else [Some(word[1])] + Tokens(word[2..])
    else [if word[0] == '_' then None else Some(word[0])] + Tokens(word[1..])
  }

  predicate NoPercent(word: string) {
    '%' !in word
  }

  predicate Fits(s: string, k: nat, tokens: seq<Option<char>>) {
    k + |tokens| <= |s| && forall i :: 0 <= i < |tokens| ==> tokens[i] == None || tokens[i] == Some(s[k + i])
  }

  ghost predicate FitsSomewhere(s: string, tokens: seq<Option<char>>) {
    exists k: nat :: Fits(s, k, tokens)
  }

  /** A dangling escape takes away the pattern's final wildcard: the text must end in a percent sign. */
  lemma {:induction false} DanglingAsksForPercent(s: string, word: string)
    requires Dangling(word) && Like(s, word + "%")
    ensures s != [] && s[|s| - 1] == '%'
    decreases |s| + |word|
  {
    var p := word + "%";
    assert p[1..] == word[1..] + "%";
    if word[0] == '%' {
      if Like(s, p[1..]) {
        DanglingAsksForPercent(s, word[1..]);
      } else {
        DanglingAsksForPercent(s[1..], word);
      }
    } else if word[0] == ESCAPE {
      if |word| > 1 {
        assert p[2..] == word[2..] + "%";
        DanglingAsksForPercent(s[1..], word[2..]);
      } else {
        assert p[2..] == [];
      }
    } else {
      DanglingAsksForPercent(s[1..], word[1..]);
    }
  }

  lemma FitsFirst(s: string, token: Option<char>, rest: seq<Option<char>>)
    ensures Fits(s, 0, [token] + rest) <==> s != [] && (token == None || token == Some(s[0])) && Fits(s[1..], 0, rest)
  {
    var tokens := [token] + rest;
    if s != [] && Fits(s[1..], 0, rest) && (token == None || token == Some(s[0])) {
      forall i | 0 <= i < |tokens| ensures tokens[i] == None || tokens[i] == Some(s[i]) {
        assert i > 0 ==> tokens[i] == rest[i - 1] && s[i] == s[1..][i - 1];
      }
    }
    if Fits(s, 0, tokens) {
      assert tokens[0] == token;
      forall i | 0 <= i < |rest| ensures rest[i] == None || rest[i] == Some(s[1..][i]) {
        assert rest[i] == tokens[i + 1] && s[1..][i] == s[i + 1];
      }
    }
  }

  /**
    For a word without "%" and without a dangling escape, "%" after it means that the text starts with what the word
    asks for.
  */
  lemma {:induction false} WordPrefix(s: string, word: string)
    requires NoPercent(word) && !Dangling(word)
    ensures Like(s, word + "%") <==> Fits(s, 0, Tokens(word))
    decreases |word|
  {
    var p := word + "%";
    if word == [] {
      PercentMatchesAll(s);
      assert p == "%";
    } else {
      var n := if word[0] == ESCAPE then 2 else 1;
      var rest := word[n..];
      assert p[n..] == rest + "%";
      assert NoPercent(rest);
      FitsFirst(s, Tokens(word)[0], Tokens(rest));
      assert Tokens(word) == [Tokens(word)[0]] + Tokens(rest);
      if s != [] {
        WordPrefix(s[1..], rest);
      }
    }
  }

  lemma {:induction false} SkippedPrefix(s: string, p: string) returns (k: nat)
    requires Like(s, "%" + p)
    ensures k <= |s| && Like(s[k..], p)
  {
    assert ("%" + p)[1..] == p;
    if Like(s, p) {
      k := 0;
      assert s[0..] == s;
    } else {
      k := SkippedPrefix(s[1..], p);
      assert s[1..][k..] == s[k + 1..];
      k := k + 1;
    }
  }

  lemma FitsAt(s: string, tokens: seq<Option<char>>, k: nat)
    requires k <= |s|
    ensures Fits(s[k..], 0, tokens) <==> Fits(s, k, tokens)
  {
    if k + |tokens| <= |s| {
      assert forall i :: 0 <= i < |tokens| ==> s[k..][i] == s[k + i];
    }
  }

  lemma MatchFits(s: string, word: string)
    requires NoPercent(word) && (s != [] ==> s[|s| - 1] != '%') && Like(s, Around(word))
    ensures !Dangling(word) && FitsSomewhere(s, Tokens(word))
  {
    assert Around(word) == "%" + (word + "%");
    var k := SkippedPrefix(s, word + "%");
    if Dangling(word) {
      DanglingAsksForPercent(s[k..], word);
    } else {
      WordPrefix(s[k..], word);
      FitsAt(s, Tokens(word), k);
    }
  }

  lemma FitMatches(s: string, word: string)
    requires NoPercent(word) && !Dangling(word) && FitsSomewhere(s, Tokens(word))
    ensures Like(s, Around(word))
  {
    var k: nat :| Fits(s, k, Tokens(word));
    FitsAt(s, Tokens(word), k);
    WordPrefix(s[k..], word);
    PercentSkipsPrefix(s[..k], s[k..], word + "%");
    assert s == s[..k] + s[k..];
    assert Around(word) == "%" + (word + "%");
  }

  /** Exactly when a text not ending in "%" matches the pattern built around a word without "%". */
  lemma PatternMeansFit(s: string, word: string)
    requires NoPercent(word) && (s != [] ==> s[|s| - 1] != '%')
    ensures Like(s, Around(word)) <==> !Dangling(word) && FitsSomewhere(s, Tokens(word))
  {
    if Like(s, Around(word)) {
      MatchFits(s, word);
    } else if !Dangling(word) && FitsSomewhere(s, Tokens(word)) {
      FitMatches(s, word);
    }
  }

  // ---------- Any word, as a pattern of its own ----------

  /** Some part of the text matches the pattern. */
  ghost predicate PartMatches(s: string, p: string) {
    exists i, j :: 0 <= i <= j <= |s| && Like(s[i..j], p)
  }

  lemma {:induction false} PercentTakesTheRest(s: string, rest: string, p: string)
    requires Like(s, p)
    ensures Like(s + rest, p + "%")
    decreases |s| + |p|
  {
    if p == [] {
      PercentMatchesAll(rest);
      assert s + rest == rest && p + "%" == "%";
    } else {
      var n := if p[0] == ESCAPE then 2 else 1;
      assert (p + "%")[n..] == p[n..] + "%";
      assert s != [] ==> (s + rest)[1..] == s[1..] + rest;
      if p[0] == '%' {
        if Like(s, p[1..]) {
          PercentTakesTheRest(s, rest, p[1..]);
        } else {
          PercentTakesTheRest(s[1..], rest, p);
        }
      } else {
        PercentTakesTheRest(s[1..], rest, p[n..]);
      }
    }
  }

  /** A final "%" takes the end of the text, unless an escape in front of it makes it literal. */
  lemma {:induction false} MatchingFront(s: string, p: string) returns (j: nat)
    requires Like(s, p + "%") && (s != [] ==> s[|s| - 1] != '%')
    ensures j <= |s| && Like(s[..j], p)
    decreases |s| + |p|
  {
    if p == [] {
      j := 0;
    } else if p == [ESCAPE] {
      assert false;
    } else {
      var n := if p[0] == ESCAPE then 2 else 1;
      assert (p + "%")[n..] == p[n..] + "%";
      if p[0] == '%' && Like(s, p[1..] + "%") {
        j := MatchingFront(s, p[1..]);
      } else {
        j := MatchingFront(s[1..], if p[0] == '%' then p else p[n..]);
        assert s[..j + 1][1..] == s[1..][..j];
        j := j + 1;
      }
    }
  }

  lemma MatchHasPart(s: string, word: string)
    requires (s != [] ==> s[|s| - 1] != '%') && Like(s, Around(word))
    ensures PartMatches(s, word)
  {
    assert Around(word) == "%" + (word + "%");
    var i := SkippedPrefix(s, word + "%");
    var n := MatchingFront(s[i..], word);
    assert s[i..][..n] == s[i..i + n];
  }

  lemma PartMakesMatch(s: string, word: string)
    requires PartMatches(s, word)
    ensures Like(s, Around(word))
  {
    var i, j :| 0 <= i <= j <= |s| && Like(s[i..j], word);
    PercentTakesTheRest(s[i..j], s[j..], word);
    PercentSkipsPrefix(s[..i], s[i..j] + s[j..], word + "%");
    assert s == s[..i] + (s[i..j] + s[j..]);
    assert Around(word) == "%" + (word + "%");
  }

  /** A text not ending in "%" matches the pattern built around a word exactly when a part of it matches the word. */
  lemma AroundMeansPart(s: string, word: string)
    requires s != [] ==> s[|s| - 1] != '%'
    ensures Like(s, Around(word)) <==> PartMatches(s, word)
  {
    if Like(s, Around(word)) {
      MatchHasPart(s, word);
    } else if PartMatches(s, word) {
      PartMakesMatch(s, word);
    }
  }

  /** Without escapes the word asks for its own characters, except at "_". */
  lemma {:induction false} PlainTokens(word: string)
    requires NoEscape(word)
    ensures !Dangling(word) && |Tokens(word)| == |word|
    ensures forall i :: 0 <= i < |word| ==> Tokens(word)[i] == if word[i] == '_' then None else Some(word[i])
  {
    if word != [] {
      PlainTokens(word[1..]);
      assert forall i :: 1 <= i < |word| ==> Tokens(word)[i] == Tokens(word[1..])[i - 1] && word[i] == word[1..][i - 1];
    }
  }
}
