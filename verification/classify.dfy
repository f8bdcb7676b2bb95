/**
  Statement classification in `query()` (db.class.php): the patterns
  `/^\s*(create|alter|truncate|drop)\s/i`, `/^\s*(insert|delete|update|replace)\s/i`
  and `/^\s*(insert|replace)\s/i`, applied to the trimmed query text.
 */
module Statement {
  import opened Php

  const DdlWords: seq<string> := ["create", "alter", "truncate", "drop"]
  const WriteWords: seq<string> := ["insert", "delete", "update", "replace"]
  const InsertWords: seq<string> := ["insert", "replace"]

  /** Drops leading characters matched by `\s`. */
  function SkipSpace(s: string): (r: string)
    ensures |r| <= |s| && r == s[|s| - |r|..]
    ensures |r| > 0 ==> !IsSpace(r[0])
    ensures forall i :: 0 <= i < |s| - |r| ==> IsSpace(s[i])
  {
    if |s| > 0 && IsSpace(s[0]) then SkipSpace(s[1..]) else s
  }

  /** `kw`, in any letter case, starts `s` and is followed by a `\s` character. */
  predicate WordAt(s: string, n: int, kw: string) {
    0 <= n && n + |kw| < |s| && LowerString(s[n..n + |kw|]) == kw && IsSpace(s[n + |kw|])
  }

  /** The matcher as evaluated: skip `\s*` greedily, then try each keyword. */
  predicate Leads(q: string, kws: seq<string>) {
    exists k :: k in kws && WordAt(SkipSpace(q), 0, k)
  }

  /**
    The pattern read as a regular expression: some number `n` of `\s`
    characters, then a keyword of the alternation, then a `\s` character.
   */
  predicate Matches(q: string, kws: seq<string>) {
    exists n, k :: 0 <= n <= |q| && k in kws && AllSpace(q, n) && WordAt(q, n, k)
  }

  predicate AllSpace(q: string, n: int) {
    0 <= n <= |q| && forall i :: 0 <= i < n ==> IsSpace(q[i])
  }

  /** Keywords are lower-case letters, so none of them starts with a `\s` character. */
  predicate Keyword(k: string) {
    |k| > 0 && forall i :: 0 <= i < |k| ==> 'a' <= k[i] <= 'z'
  }

  lemma AllKeywords()
    ensures forall k :: k in DdlWords ==> Keyword(k)
    ensures forall k :: k in WriteWords ==> Keyword(k)
    ensures forall k :: k in InsertWords ==> Keyword(k)
  {
  }

  lemma LeadsThenMatches(q: string, kws: seq<string>, k: string)
    requires k in kws && WordAt(SkipSpace(q), 0, k)
    ensures Matches(q, kws)
  {
    var r := SkipSpace(q);
    var m := |q| - |r|;
    assert r[0..|k|] == q[m..m + |k|];
    assert r[|k|] == q[m + |k|];
    assert AllSpace(q, m) && WordAt(q, m, k);
  }

  lemma MatchStartsAfterSpace(q: string, n: int, k: string)
    requires Keyword(k) && AllSpace(q, n) && WordAt(q, n, k)
    ensures n == |q| - |SkipSpace(q)|
  {
    var r := SkipSpace(q);
    var m := |q| - |r|;
    assert LowerString(q[n..n + |k|])[0] == Lower(q[n]) == k[0];
    assert !IsSpace(q[n]);
    assert |r| > 0 ==> r[0] == q[m];
  }

  lemma MatchesThenLeads(q: string, n: int, k: string)
    requires Keyword(k) && AllSpace(q, n) && WordAt(q, n, k)
    ensures WordAt(SkipSpace(q), 0, k)
  {
    MatchStartsAfterSpace(q, n, k);
    var r := SkipSpace(q);
    assert r[0..|k|] == q[n..n + |k|];
    assert r[|k|] == q[n + |k|];
  }

  /**
    Greedy skipping loses no match: backtracking `\s*` to a shorter run
    would leave a `\s` character where the keyword must start.
   */
  lemma LeadsIffMatches(q: string, kws: seq<string>)
    requires forall k :: k in kws ==> Keyword(k)
    ensures Leads(q, kws) <==> Matches(q, kws)
  {
    if Leads(q, kws) {
      var k :| k in kws && WordAt(SkipSpace(q), 0, k);
      LeadsThenMatches(q, kws, k);
    }
    if Matches(q, kws) {
      var n, k :| 0 <= n <= |q| && k in kws && AllSpace(q, n) && WordAt(q, n, k);
      MatchesThenLeads(q, n, k);
    }
  }

  /** The kind of statement `query()` distinguishes. */
  datatype Kind = Ddl | Write(isInsert: bool) | Read

  function Classify(q: string): (k: Kind)
    ensures k.Ddl? <==> Matches(q, DdlWords)
    ensures k.Write? <==> !Matches(q, DdlWords) && Matches(q, WriteWords)
    ensures k.Write? ==> (k.isInsert <==> Matches(q, InsertWords))
    ensures k.Read? <==> !Matches(q, DdlWords) && !Matches(q, WriteWords)
  {
    AllKeywords();
    LeadsIffMatches(q, DdlWords);
    LeadsIffMatches(q, WriteWords);
    LeadsIffMatches(q, InsertWords);
    if Leads(q, DdlWords) then Ddl
    else if Leads(q, WriteWords) then Write(Leads(q, InsertWords))
    else Read
  }

  /** Two different keywords of the patterns never match the same text. */
  lemma WordsExclusive(s: string, n: int, k1: string, k2: string)
    requires k1 in DdlWords + WriteWords && k2 in DdlWords + WriteWords
    requires WordAt(s, n, k1) && WordAt(s, n, k2)
    ensures k1 == k2
  {
    AllKeywords();
    if |k1| <= |k2| {
      ShorterWord(s, n, k1, k2);
    } else {
      ShorterWord(s, n, k2, k1);
    }
  }

  /**
    Of two keywords matching at the same place, the shorter one would be
    followed by a `\s` character where the longer one has a letter.
   */
  lemma ShorterWord(s: string, n: int, k1: string, k2: string)
    requires Keyword(k2) && |k1| <= |k2|
    requires WordAt(s, n, k1) && WordAt(s, n, k2)
    ensures k1 == k2
  {
    var w2 := LowerString(s[n..n + |k2|]);
    if |k1| < |k2| {
      assert false;
    }
    forall i | 0 <= i < |k1|
      ensures k1[i] == k2[i]
    {
      assert LowerString(s[n..n + |k1|])[i] == Lower(s[n + i]) == w2[i];
    }
  }

  /**
    A statement led by one of the write keywords is a write, and an insert
    exactly when that keyword is INSERT or REPLACE.
   */
  lemma LeadingWriteWord(q: string, k: string)
    requires k in WriteWords
    requires Matches(q, [k])
    ensures Classify(q) == Write(k in InsertWords)
  {
    AllKeywords();
    LeadsIffMatches(q, [k]);
    var r := SkipSpace(q);
    assert WordAt(r, 0, k);
    assert Leads(q, WriteWords);
    forall k' | k' in DdlWords + WriteWords && WordAt(r, 0, k')
      ensures k' == k
    {
      WordsExclusive(r, 0, k, k');
    }
    if k in InsertWords {
      assert Leads(q, InsertWords);
    }
  }

  /** A statement that starts with UPDATE or DELETE is a write that is not an insert. */
  lemma UpdateDeleteAreNotInserts(q: string, k: string)
    requires k == "update" || k == "delete"
    requires Matches(q, [k])
    ensures Classify(q) == Write(false)
  {
    LeadingWriteWord(q, k);
  }
}
