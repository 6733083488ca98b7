/** OAuth scope lists (splitScopes and splitBySpace in internal/api/oauth2_api.go; section 3.3 of RFC 6749): words
    between spaces, each kept once. Strings are sequences of bytes. */
module Scopes {
  const SPACE := ' '

  function WordEnd(s: string): (k: nat)
    ensures k <= |s| && (forall j :: 0 <= j < k ==> s[j] != SPACE) && (k < |s| ==> s[k] == SPACE)
  {
    if s == [] || s[0] == SPACE then 0
    else 1 + WordEnd(s[1..])
  }

  /** The words of a text. */
  function Words(s: string): seq<string>
    decreases |s|
  {
    if s == [] then []
    else if s[0] == SPACE then Words(s[1..])
    else var k := WordEnd(s); [s[..k]] + Words(s[k..])
  }

  lemma WordEndIs(s: string, k: nat)
    requires k <= |s| && SPACE !in s[..k] && (k < |s| ==> s[k] == SPACE)
    ensures WordEnd(s) == k
  {
    forall j | 0 <= j < k ensures s[j] != SPACE { assert s[j] == s[..k][j]; }
  }

  lemma NoWords()
    ensures Words([]) == []
  {
  }

  lemma SkipSpace(s: string)
    requires s != [] && s[0] == SPACE
    ensures Words(s) == Words(s[1..])
  {
  }

  lemma TakeWord(s: string, k: nat)
    requires 0 < k <= |s| && SPACE !in s[..k] && (k < |s| ==> s[k] == SPACE)
    ensures Words(s) == [s[..k]] + Words(s[k..])
  {
    WordEndIs(s, k);
    assert s[0] == s[..k][0];
  }

  lemma LastWord(s: string)
    requires s != [] && SPACE !in s
    ensures Words(s) == [s]
  {
    assert s[..|s|] == s && s[|s|..] == [];
    TakeWord(s, |s|);
  }

  /** A word that begins the text and the space behind it. */
  lemma WordThenSpace(s: string, k: nat)
    requires k < |s| && SPACE !in s[..k] && s[k] == SPACE
    ensures Words(s) == (if k > 0 then [s[..k]] else []) + Words(s[k + 1..])
  {
    assert s[k..][1..] == s[k + 1..];
    SkipSpace(s[k..]);
    if k > 0 { TakeWord(s, k); } else { assert s[0..] == s; }
  }

  method SplitBySpace(s: string) returns (result: seq<string>)
    ensures result == Words(s)
  {
    hide Words, WordEnd;
    result := [];
    var start := 0;
    assert s[0..] == s;
    for i := 0 to |s|
      invariant 0 <= start <= i && SPACE !in s[start..i]
      invariant Words(s) == result + Words(s[start..])
    {
      if s[i] == SPACE {
        WordThenSpace(s[start..], i - start);
        assert s[start..][..i - start] == s[start..i] && s[start..][i - start + 1..] == s[i + 1..];
        if i > start {
          result := result + [s[start..i]];
        }
        start := i + 1;
      } else {
        assert s[start..i + 1] == s[start..i] + [s[i]];
      }
    }
    NoWords();
    assert s[start..|s|] == s[start..];
    if start < |s| {
      LastWord(s[start..]);
      result := result + [s[start..]];
    }
  }

  /** Each word once, where it first occurs. */
  function Dedupe(ws: seq<string>): seq<string> {
    if ws == [] then []
    else
      var d, w := Dedupe(ws[..|ws| - 1]), ws[|ws| - 1];
      if w == "" || w in d then d else d + [w]
  }

  /** The scopes in a scope parameter. */
  function ScopesOf(scope: string): seq<string> {
    Dedupe(Words(scope))
  }

  method SplitScopes(scope: string) returns (scopes: seq<string>)
    ensures scopes == ScopesOf(scope)
  {
    if scope == "" {
      return [];
    }
    scopes := [];
    var seen: map<string, bool> := map[];
    var words := SplitBySpace(scope);
    for i := 0 to |words|
      invariant scopes == Dedupe(words[..i])
      invariant forall w :: w in scopes <==> w in seen && seen[w]
    {
      assert words[..i + 1][..|words[..i + 1]| - 1] == words[..i];
      var s := words[i];
      if s != "" && !(s in seen && seen[s]) {
        seen := seen[s := true];
        scopes := scopes + [s];
      }
    }
    assert words[..|words|] == words;
  }

  // ----- what the list is -----

  predicate Distinct(ws: seq<string>) {
    forall i, j :: 0 <= i < j < |ws| ==> ws[i] != ws[j]
  }

  predicate AreWords(ws: seq<string>) {
    forall i :: 0 <= i < |ws| ==> ws[i] != "" && SPACE !in ws[i]
  }

  function FirstAt(ws: seq<string>, w: string): (i: nat)
    requires w in ws
    ensures i < |ws| && ws[i] == w && w !in ws[..i]
  {
    if w in ws[..|ws| - 1] then
      var i := FirstAt(ws[..|ws| - 1], w);
      assert ws[..|ws| - 1][..i] == ws[..i];
      i
    else |ws| - 1
  }

  lemma {:induction false} WordsAreWords(s: string)
    ensures AreWords(Words(s))
    decreases |s|
  {
    if s == [] {
    } else {
      if s[0] == SPACE {
        WordsAreWords(s[1..]);
      } else {
        WordsAreWords(s[WordEnd(s)..]);
      }
    }
  }

  /** Without empty words, the result has each of them once, in the order of their first occurrences. */
  lemma {:induction false} DedupeKeepsFirsts(ws: seq<string>)
    requires AreWords(ws)
    ensures Distinct(Dedupe(ws)) && AreWords(Dedupe(ws)) && forall w :: w in Dedupe(ws) <==> w in ws
    ensures forall i, j :: 0 <= i < j < |Dedupe(ws)| ==> FirstAt(ws, Dedupe(ws)[i]) < FirstAt(ws, Dedupe(ws)[j])
  {
    if ws == [] {
    } else {
      var p, w := ws[..|ws| - 1], ws[|ws| - 1];
      DedupeKeepsFirsts(p);
      var d, n := Dedupe(p), Dedupe(ws);
      assert ws == p + [w];
      forall i, j | 0 <= i < j < |n| ensures FirstAt(ws, n[i]) < FirstAt(ws, n[j]) {
        assert n[i] in d && (j < |d| ==> n[j] in d);
      }
    }
  }

  /** The scopes are the words of the text, no two the same, by first occurrence. */
  lemma ScopesAreFirsts(scope: string)
    ensures var ws, r := Words(scope), ScopesOf(scope);
      && Distinct(r) && AreWords(r) && (forall w :: w in r <==> w in ws)
      && (forall i, j :: 0 <= i < j < |r| ==> r[i] in ws && r[j] in ws && FirstAt(ws, r[i]) < FirstAt(ws, r[j]))
  {
    WordsAreWords(scope);
    DedupeKeepsFirsts(Words(scope));
    forall i | 0 <= i < |ScopesOf(scope)| ensures ScopesOf(scope)[i] in Words(scope) {
      assert ScopesOf(scope)[i] in ScopesOf(scope);
    }
  }

  /** strings.Join with a space. */
  function Joined(ws: seq<string>): string {
    if ws == [] then "" else if |ws| == 1 then ws[0] else ws[0] + " " + Joined(ws[1..])
  }

  lemma {:induction false} WordsOfJoined(ws: seq<string>)
    requires AreWords(ws)
    ensures Words(Joined(ws)) == ws
  {
    hide Words;
    NoWords();
    if ws == [] {
    } else {
      var s, k := Joined(ws), |ws[0]|;
      assert s[..k] == ws[0];
      TakeWord(s, k);
      if |ws| > 1 {
        assert s[k..] == " " + Joined(ws[1..]) && s[k..][1..] == Joined(ws[1..]);
        SkipSpace(s[k..]);
        WordsOfJoined(ws[1..]);
      }
    }
  }

  lemma {:induction false} DedupeOfDistinct(ws: seq<string>)
    requires Distinct(ws) && AreWords(ws)
    ensures Dedupe(ws) == ws
  {
    if ws == [] {
    } else {
      DedupeOfDistinct(ws[..|ws| - 1]);
    }
  }

  /** Joining the scopes with spaces and splitting again gives the same scopes. */
  lemma ResplitIsIdentity(scope: string)
    ensures ScopesOf(Joined(ScopesOf(scope))) == ScopesOf(scope)
  {
    ScopesAreFirsts(scope);
    WordsOfJoined(ScopesOf(scope));
    DedupeOfDistinct(ScopesOf(scope));
  }
}
