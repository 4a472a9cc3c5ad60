/** The reference tokenizer: what the terms of a text are, and the one-pass loop that collects them.
    The alphanumeric test and lower-casing belong to the platform and are parameters. */
module Tokenizer {
  datatype Alphabet = Alphabet(isAlphanumeric: char -> bool, lower: string -> string)

  predicate IsHan(c: char) {
    var code := c as int;
    0x3400 <= code <= 0x4DBF || 0x4E00 <= code <= 0x9FFF || 0xF900 <= code <= 0xFAFF || 0x20000 <= code <= 0x3134F
  }

  // ---------------------------------------------------------------- the definition

  ghost predicate AllWord(abc: Alphabet, text: string, i: nat, j: nat)
    requires j <= |text|
  {
    forall k | i <= k < j :: abc.isAlphanumeric(text[k])
  }

  /** A maximal run of alphanumeric characters. */
  ghost predicate IsRun(abc: Alphabet, text: string, i: nat, j: nat) {
    && i < j <= |text|
    && AllWord(abc, text, i, j)
    && (i > 0 ==> !abc.isAlphanumeric(text[i - 1]))
    && (j < |text| ==> !abc.isAlphanumeric(text[j]))
  }

  predicate HasHan(word: string) {
    exists i | 0 <= i < |word| :: IsHan(word[i])
  }

  function PairAt(word: string, i: nat): string
    requires i + 2 <= |word|
  {
    word[i..i + 2]
  }

  function Bigrams(word: string): set<string> {
    set i | 0 <= i < |word| - 1 :: PairAt(word, i)
  }

  /** A word contributes itself and, when it contains Han characters, its bigrams. */
  function WordTerms(word: string): set<string> {
    {word} + if HasHan(word) then Bigrams(word) else {}
  }

  /** The terms contributed by the runs that end at or before `limit`. */
  ghost function TermsUpTo(abc: Alphabet, text: string, limit: nat): set<string>
    requires limit <= |text|
  {
    set i, j, t | 0 <= i < j <= limit && IsRun(abc, text, i, j) && t in WordTerms(abc.lower(text[i..j])) :: t
  }

  ghost function Terms(abc: Alphabet, text: string): set<string> {
    TermsUpTo(abc, text, |text|)
  }

  /** Every term comes from a run. */
  lemma {:induction false} TermFromRun(abc: Alphabet, text: string, t: string) returns (i: nat, j: nat)
    requires t in Terms(abc, text)
    ensures IsRun(abc, text, i, j) && t in WordTerms(abc.lower(text[i..j]))
  {
    i, j :| 0 <= i < j <= |text| && IsRun(abc, text, i, j) && t in WordTerms(abc.lower(text[i..j]));
  }

  /** The lowered word itself, or two neighbouring characters of one that has a Han character in it. */
  ghost predicate Yields(word: string, t: string) {
    || t == word
    || ((exists k | 0 <= k < |word| :: IsHan(word[k])) && exists m | 0 <= m < |word| - 1 :: t == [word[m], word[m + 1]])
  }

  lemma {:induction false} YieldsItsTerms(word: string, t: string)
    ensures t in WordTerms(word) <==> Yields(word, t)
  {
    if t in Bigrams(word) {
      var m :| 0 <= m < |word| - 1 && t == PairAt(word, m);
      assert t == [word[m], word[m + 1]];
    }
    if m :| 0 <= m < |word| - 1 && t == [word[m], word[m + 1]] {
      assert PairAt(word, m) == t && PairAt(word, m) in Bigrams(word);
    }
  }

  /** What the terms of a text are, term by term: those its maximal runs yield. */
  lemma {:induction false} TermsPlainly(abc: Alphabet, text: string, t: string)
    ensures t in Terms(abc, text) <==> exists i: nat, j: nat | IsRun(abc, text, i, j) :: Yields(abc.lower(text[i..j]), t)
  {
    if t in Terms(abc, text) {
      var i, j := TermFromRun(abc, text, t);
      YieldsItsTerms(abc.lower(text[i..j]), t);
    }
    if i: nat, j: nat :| IsRun(abc, text, i, j) && Yields(abc.lower(text[i..j]), t) {
      YieldsItsTerms(abc.lower(text[i..j]), t);
    }
  }

  // ---------------------------------------------------------------- the loop

  /** Two maximal runs that end together start together. */
  lemma {:induction false} SameEndSameRun(abc: Alphabet, text: string, i: nat, s: nat, j: nat)
    requires IsRun(abc, text, i, j)
    requires s < j <= |text| && AllWord(abc, text, s, j) && (s > 0 ==> !abc.isAlphanumeric(text[s - 1]))
    ensures i == s
  {
    assert i < s ==> i <= s - 1 < j;
    assert s < i ==> s <= i - 1 < j;
  }

  /** No run ends right after a non-alphanumeric character. */
  lemma {:induction false} NoRunEndsAt(abc: Alphabet, text: string, j: nat)
    requires j < |text| && !abc.isAlphanumeric(text[j])
    ensures TermsUpTo(abc, text, j + 1) == TermsUpTo(abc, text, j)
  {
    var end := j + 1;
    forall i: nat
      ensures !IsRun(abc, text, i, end)
    {
      assert i <= j ==> !AllWord(abc, text, i, end);
    }
  }

  /** The run that ends at `j` adds its terms and nothing else. */
  lemma {:induction false} RunEndsAt(abc: Alphabet, text: string, s: nat, j: nat)
    requires IsRun(abc, text, s, j)
    ensures TermsUpTo(abc, text, j) == TermsUpTo(abc, text, j - 1) + WordTerms(abc.lower(text[s..j]))
  {
    forall i: nat | IsRun(abc, text, i, j)
      ensures i == s
    {
      SameEndSameRun(abc, text, i, s, j);
    }
  }

  /** Inside a run nothing has ended yet. */
  lemma {:induction false} RunContinues(abc: Alphabet, text: string, j: nat)
    requires 0 < j < |text| && abc.isAlphanumeric(text[j])
    ensures TermsUpTo(abc, text, j) == TermsUpTo(abc, text, j - 1)
  {
  }

  method Flush(abc: Alphabet, segment: string, terms: set<string>) returns (r: set<string>)
    ensures r == if segment == "" then terms else terms + WordTerms(abc.lower(segment))
  {
    if segment == "" {
      return terms;
    }
    var lowered := abc.lower(segment);
    r := terms + {lowered};
    if exists i | 0 <= i < |lowered| :: IsHan(lowered[i]) {
      for i := 0 to |lowered| - 1
        invariant r == terms + {lowered} + set k | 0 <= k < i :: PairAt(lowered, k)
      {
        r := r + {PairAt(lowered, i)};
      }
    }
  }

  /** One pass over the text with a segment buffer computes exactly the declared terms. */
  method MemoryTerms(abc: Alphabet, text: string) returns (terms: set<string>)
    ensures terms == Terms(abc, text)
  {
    terms := {};
    var segment := "";
    ghost var start := 0;
    for k := 0 to |text|
      invariant 0 <= start <= k && segment == text[start..k] && AllWord(abc, text, start, k)
      invariant start > 0 ==> !abc.isAlphanumeric(text[start - 1])
      invariant terms == TermsUpTo(abc, text, if k == 0 then 0 else k - 1)
      invariant start == k > 0 ==> TermsUpTo(abc, text, k) == terms
    {
      if abc.isAlphanumeric(text[k]) {
        if k > 0 {
          RunContinues(abc, text, k);
        }
        segment := segment + [text[k]];
        assert segment == text[start..k + 1];
      } else {
        terms := Flush(abc, segment, terms);
        if start < k {
          RunEndsAt(abc, text, start, k);
        }
        NoRunEndsAt(abc, text, k);
        segment, start := "", k + 1;
      }
    }
    terms := Flush(abc, segment, terms);
    if start < |text| {
      RunEndsAt(abc, text, start, |text|);
    }
  }

  // ---------------------------------------------------------------- separators

  /** Runs of a text joined at a separator are the runs of its two parts. */
  lemma {:induction false} RunsOfJoin(abc: Alphabet, a: string, c: char, b: string, i: nat, j: nat)
    requires !abc.isAlphanumeric(c)
    ensures IsRun(abc, a + [c] + b, i, j) <==>
              || (j <= |a| && IsRun(abc, a, i, j))
              || (|a| < i < j && IsRun(abc, b, i - |a| - 1, j - |a| - 1))
  {
    var text := a + [c] + b;
    assert text[|a|] == c;
    assert forall k | 0 <= k < |a| :: text[k] == a[k];
    assert forall k | 0 <= k < |b| :: text[k + |a| + 1] == b[k];
  }

  lemma {:induction false} SlicesOfJoin(a: string, c: char, b: string, i: nat, j: nat)
    requires i <= j
    ensures j <= |a| ==> (a + [c] + b)[i..j] == a[i..j]
    ensures j <= |b| ==> (a + [c] + b)[i + |a| + 1..j + |a| + 1] == b[i..j]
  {
    var text := a + [c] + b;
    if j <= |b| {
      forall k | 0 <= k < j - i
        ensures text[i + |a| + 1..j + |a| + 1][k] == b[i..j][k]
      {
        assert text[i + |a| + 1 + k] == b[i + k];
      }
    }
  }

  lemma {:induction false} PartsInJoin(abc: Alphabet, a: string, c: char, b: string, t: string)
    requires !abc.isAlphanumeric(c) && (t in Terms(abc, a) || t in Terms(abc, b))
    ensures t in Terms(abc, a + [c] + b)
  {
    var offset := |a| + 1;
    if t in Terms(abc, a) {
      var i, j := TermFromRun(abc, a, t);
      RunsOfJoin(abc, a, c, b, i, j);
      SlicesOfJoin(a, c, b, i, j);
    } else {
      var i, j := TermFromRun(abc, b, t);
      RunsOfJoin(abc, a, c, b, i + offset, j + offset);
      SlicesOfJoin(a, c, b, i, j);
    }
  }

  lemma {:induction false} JoinInParts(abc: Alphabet, a: string, c: char, b: string, t: string)
    requires !abc.isAlphanumeric(c) && t in Terms(abc, a + [c] + b)
    ensures t in Terms(abc, a) || t in Terms(abc, b)
  {
    var i, j := TermFromRun(abc, a + [c] + b, t);
    RunsOfJoin(abc, a, c, b, i, j);
    if j <= |a| {
      SlicesOfJoin(a, c, b, i, j);
    } else {
      SlicesOfJoin(a, c, b, i - |a| - 1, j - |a| - 1);
    }
  }

  /** The terms of a text joined at a separator are the terms of its two parts together. */
  lemma {:induction false} TermsOfJoin(abc: Alphabet, a: string, c: char, b: string)
    requires !abc.isAlphanumeric(c)
    ensures Terms(abc, a + [c] + b) == Terms(abc, a) + Terms(abc, b)
  {
    forall t | t in Terms(abc, a + [c] + b)
      ensures t in Terms(abc, a) + Terms(abc, b)
    {
      JoinInParts(abc, a, c, b, t);
    }
    forall t | t in Terms(abc, a) + Terms(abc, b)
      ensures t in Terms(abc, a + [c] + b)
    {
      PartsInJoin(abc, a, c, b, t);
    }
  }
}
