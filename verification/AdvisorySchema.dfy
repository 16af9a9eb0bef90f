/** What the schema of an advisory event accepts, beside the clauses that say it. */
module AdvisorySchema {
  import opened Text
  import opened AdvisoryChain

  /** The words of a slug, joined by hyphens. */
  function Hyphenated(words: seq<Str>): Str
    requires words != []
  {
    if |words| == 1 then words[0] else words[0] + [45] + Hyphenated(words[1..])
  }

  predicate IsWord(word: Str) {
    word != [] && forall i :: 0 <= i < |word| ==> IsLowerAlnum(word[i])
  }

  predicate AreWords(words: seq<Str>) {
    words != [] && forall i :: 0 <= i < |words| ==> IsWord(words[i])
  }

  /** A slug is what the expression for it generates: words of lower-case letters and digits,
      one hyphen between two of them. */
  lemma SlugIsWords(s: Str)
    ensures IsSlug(s) <==> exists words: seq<Str> :: AreWords(words) && s == Hyphenated(words)
  {
    if IsSlug(s) {
      var words := SplitSlug(s);
      assert AreWords(words) && s == Hyphenated(words);
    }
    forall words: seq<Str> | AreWords(words) && s == Hyphenated(words) ensures IsSlug(s) {
      JoinedIsSlug(words);
    }
  }

  lemma {:induction false} SplitSlug(s: Str) returns (words: seq<Str>)
    requires IsSlug(s)
    ensures AreWords(words) && s == Hyphenated(words)
    decreases |s|
  {
    var n := 0;
    while n < |s| && s[n] != 45
      invariant 0 <= n <= |s|
      invariant forall i :: 0 <= i < n ==> s[i] != 45
    {
      n := n + 1;
    }
    if n == |s| {
      words := [s];
    } else {
      assert n > 0;
      var rest := s[n + 1..];
      assert rest != [] && rest[0] == s[n + 1] && rest[|rest| - 1] == s[|s| - 1];
      assert s[n + 1] != 45;
      assert IsSlug(rest) by {
        forall i | 0 < i < |rest| && rest[i] == 45 ensures rest[i - 1] != 45 {
          assert s[n + 1 + i] == 45;
        }
      }
      var others := SplitSlug(rest);
      words := [s[..n]] + others;
      assert words[1..] == others;
      assert s == s[..n] + [45] + rest;
      assert IsWord(s[..n]);
    }
  }

  lemma {:induction false} JoinedIsSlug(words: seq<Str>)
    requires AreWords(words)
    ensures IsSlug(Hyphenated(words))
  {
    if |words| > 1 {
      var word, rest, s := words[0], Hyphenated(words[1..]), Hyphenated(words);
      assert IsWord(word);
      assert AreWords(words[1..]);
      JoinedIsSlug(words[1..]);
      assert s == word + [45] + rest;
      forall i | 0 < i < |s| && s[i] == 45 ensures s[i - 1] != 45 {
        assert i >= |word|;
        if i > |word| {
          assert s[i] == rest[i - |word| - 1];
        }
      }
    } else {
      assert IsWord(words[0]);
    }
  }

  /** n times the unit c. */
  function Repeated(c: CodeUnit, n: nat): (r: Str)
    ensures |r| == n && forall i :: 0 <= i < n ==> r[i] == c
  {
    seq(n, i => c)
  }

  /** The lengths the schema takes, in whatever valid event the text stands; 97 is a, 65 is A and
      48 is 0. A hash has 64 digits and no other number of them. */
  lemma LengthsTaken(isDatetime: Str -> bool, e: Event, n: nat)
    requires SchemaValid(isDatetime, e)
    ensures SchemaValid(isDatetime, e.(advisoryId := Repeated(97, n))) <==> 1 <= n <= 120
    ensures SchemaValid(isDatetime, e.(skillId := Repeated(97, n))) <==> 1 <= n <= 80
    ensures SchemaValid(isDatetime, e.(revision := Repeated(65, n))) <==> 1 <= n <= 128
    ensures SchemaValid(isDatetime, e.(reasonCode := Repeated(65, n))) <==> 1 <= n <= 120
    ensures SchemaValid(isDatetime, e.(previousEventHash := Repeated(48, n))) <==> n == 64
    ensures SchemaValid(isDatetime, e.(revisionSha256 := Repeated(48, n))) <==> n == 64
    ensures SchemaValid(isDatetime, e.(eventHash := Repeated(48, n))) <==> n == 64
  {
    var name := Repeated(65, n);
    assert n > 0 ==> name[0] == 65;
  }
}
