/**
 * Values the page derives from its state on every render: the word count
 * of the pitch, whether the required fields are filled in, and the
 * "email test" questions a reader of the pitch would ask.
 */
module Derived {
  import opened Text
  import opened Lint

  /** `filter(w => w.length > 0)`. */
  function NonEmpty(pieces: seq<string>): (r: seq<string>)
    ensures |r| <= |pieces|
    ensures forall t | t in r :: t != [] && t in pieces
  {
    if pieces == [] then []
    else (if pieces[0] != [] then [pieces[0]] else []) + NonEmpty(pieces[1..])
  }

  /**
   * The word count under the pitch: `split(/\s+/)` with the empty pieces
   * dropped. It counts the word starts, so it is zero exactly for a blank pitch.
   */
  function WordCount(pitch: string): (n: nat)
    ensures n == WordStarts(pitch, false)
    ensures n == 0 <==> AllSpace(pitch)
  {
    WordPiecesAreWordStarts(pitch);
    WordStartsZero(pitch);
    |NonEmpty(SplitWs(pitch))|
  }

  /**
   * Reference count: the number of places where a left-to-right scan steps
   * from whitespace (or the start) onto a character that is not whitespace.
   */
  function WordStarts(s: string, inWord: bool): nat {
    if s == [] then 0
    else if IsSpace(s[0]) then WordStarts(s[1..], false)
    else (if inWord then 0 else 1) + WordStarts(s[1..], true)
  }

  lemma {:induction false} WordStartsOfToken(t: string, rest: string, inWord: bool)
    requires NoSpace(t)
    ensures WordStarts(t + rest, inWord)
            == (if t != [] && !inWord then 1 else 0) + WordStarts(rest, inWord || t != [])
  {
    if t == [] {
      assert t + rest == rest;
    } else {
      assert (t + rest)[0] == t[0] && (t + rest)[1..] == t[1..] + rest;
      WordStartsOfToken(t[1..], rest, true);
    }
  }

  lemma {:induction false} WordStartsAfterSpaces(a: string, rest: string, inWord: bool)
    requires a != [] && AllSpace(a)
    ensures WordStarts(a + rest, inWord) == WordStarts(rest, false)
  {
    assert (a + rest)[0] == a[0] && (a + rest)[1..] == a[1..] + rest;
    if |a| > 1 {
      WordStartsAfterSpaces(a[1..], rest, false);
    } else {
      assert a[1..] + rest == rest;
    }
  }

  /** The non-empty pieces of `split(/\s+/)` are as many as the word starts. */
  lemma {:induction false} WordPiecesAreWordStarts(s: string)
    ensures |NonEmpty(SplitWs(s))| == WordStarts(s, false)
    decreases |s|
  {
    var k := TokenEnd(s);
    if k == |s| {
      assert SplitWs(s) == [s];
      assert s[..k] == s;
      assert NonEmpty([s]) == if s != [] then [s] else [];
      WordStartsOfToken(s, [], false);
      assert s + [] == s;
    } else {
      var t := TrimStart(s[k..]);
      WordPiecesStep(s, k, t);
      WordStartsStep(s, k, t);
      WordPiecesAreWordStarts(t);
    }
  }

  /** One step of the split: the first token, then the pieces of what follows the spaces after it. */
  lemma WordPiecesStep(s: string, k: nat, t: string)
    requires k == TokenEnd(s) < |s| && t == TrimStart(s[k..])
    ensures |NonEmpty(SplitWs(s))| == (if k > 0 then 1 else 0) + |NonEmpty(SplitWs(t))|
  {
    assert SplitWs(s) == [s[..k]] + SplitWs(t);
    assert ([s[..k]] + SplitWs(t))[1..] == SplitWs(t);
  }

  /** The same step for the reference count. */
  lemma WordStartsStep(s: string, k: nat, t: string)
    requires k == TokenEnd(s) < |s| && t == TrimStart(s[k..])
    ensures |t| < |s|
    ensures WordStarts(s, false) == (if k > 0 then 1 else 0) + WordStarts(t, false)
  {
    WordStartsAfterToken(s, k);
    var u := s[k..];
    var m := |u| - |t|;
    assert t == u[m..];
    assert m > 0 by {
      assert IsSpace(u[0]) && t != u;
    }
    WordStartsAfterLead(u, m, k > 0);
  }

  lemma WordStartsAfterToken(s: string, k: nat)
    requires k <= |s| && NoSpace(s[..k])
    ensures WordStarts(s, false) == (if k > 0 then 1 else 0) + WordStarts(s[k..], k > 0)
  {
    assert s == s[..k] + s[k..];
    WordStartsOfToken(s[..k], s[k..], false);
  }

  lemma WordStartsAfterLead(u: string, m: nat, inWord: bool)
    requires 0 < m <= |u| && AllSpace(u[..m])
    ensures WordStarts(u, inWord) == WordStarts(u[m..], false)
  {
    assert u == u[..m] + u[m..];
    WordStartsAfterSpaces(u[..m], u[m..], inWord);
  }

  lemma {:induction false} WordStartsZero(s: string)
    ensures WordStarts(s, false) == 0 <==> AllSpace(s)
  {
    if s != [] {
      WordStartsZero(s[1..]);
      if !IsSpace(s[0]) {
        assert !AllSpace(s);
      } else {
        assert AllSpace(s) <==> AllSpace(s[1..]) by {
          if AllSpace(s[1..]) {
            forall i | 0 <= i < |s| ensures IsSpace(s[i]) {
              if i > 0 { assert s[i] == s[1..][i - 1]; }
            }
          }
        }
      }
    }
  }

  /** The five fields marked as required; generation waits until all of them are filled. */
  predicate IsComplete(inputs: Inputs) {
    inputs.companyName != "" && inputs.offering != "" && inputs.audience != ""
    && inputs.problemStatement != "" && inputs.outcome != ""
  }

  /** The required fields are the first five in declaration order; the last two are optional. */
  lemma CompleteIffFirstFiveFilled(inputs: Inputs)
    ensures IsComplete(inputs) <==> forall k | 0 <= k < 5 :: Values(inputs)[k] != ""
  {
    if !IsComplete(inputs) {
      var vs := Values(inputs);
      assert vs[0] == "" || vs[1] == "" || vs[2] == "" || vs[3] == "" || vs[4] == "";
    }
  }

  const PlatformQuestion: string := "What kind of platform exactly?"
  const AudienceQuestion: string := "Who specifically are you targeting?"
  const DifferentiatorQuestion: string := "What makes this different from existing solutions?"
  const ConcisenessQuestion: string := "Can you say this more concisely?"

  /** The four questions in the order the page lists them. */
  const AllQuestions: seq<string> := [PlatformQuestion, AudienceQuestion, DifferentiatorQuestion, ConcisenessQuestion]

  /** The offering mentions "platform" anywhere, in any letter case. */
  predicate AsksPlatform(inputs: Inputs) {
    Contains(Lower(inputs.offering), "platform")
  }

  /** The audience contains a vague term as a substring, not only as a token. */
  predicate AsksAudience(inputs: Inputs) {
    inputs.audience != "" && exists v | v in VagueAudiences :: Contains(Lower(inputs.audience), v)
  }

  predicate AsksDifferentiator(inputs: Inputs) {
    inputs.secretSauce == ""
  }

  /** `split(' ')` yields more than thirty pieces. */
  predicate AsksConciseness(pitch: string) {
    pitch != "" && |SplitOn(pitch, ' ')| > 30
  }

  function Flags(inputs: Inputs, pitch: string): seq<bool> {
    [AsksPlatform(inputs), AsksAudience(inputs), AsksDifferentiator(inputs), AsksConciseness(pitch)]
  }

  /** `[c0 && q0, c1 && q1, ...].filter(Boolean)`: the entries whose condition holds, in order. */
  function Flagged(qs: seq<string>, flags: seq<bool>): (r: seq<string>)
    requires |qs| == |flags|
    ensures |r| <= |qs|
    ensures forall q | q in r :: q in qs
  {
    if qs == [] then []
    else (if flags[0] then [qs[0]] else []) + Flagged(qs[1..], flags[1..])
  }

  /** The questions the email test raises about the inputs and the current pitch. */
  function EmailTestQuestions(inputs: Inputs, pitch: string): (r: seq<string>)
    ensures |r| <= 4
    ensures PlatformQuestion in r <==> AsksPlatform(inputs)
    ensures AudienceQuestion in r <==> AsksAudience(inputs)
    ensures DifferentiatorQuestion in r <==> AsksDifferentiator(inputs)
    ensures ConcisenessQuestion in r <==> AsksConciseness(pitch)
  {
    var flags := Flags(inputs, pitch);
    QuestionsDistinct();
    FlaggedIff(AllQuestions, flags, 0);
    FlaggedIff(AllQuestions, flags, 1);
    FlaggedIff(AllQuestions, flags, 2);
    FlaggedIff(AllQuestions, flags, 3);
    Flagged(AllQuestions, flags)
  }

  lemma {:induction false} FlaggedIff(qs: seq<string>, flags: seq<bool>, k: nat)
    requires |qs| == |flags| && Distinct(qs) && k < |qs|
    ensures qs[k] in Flagged(qs, flags) <==> flags[k]
  {
    var head := if flags[0] then [qs[0]] else [];
    assert Flagged(qs, flags) == head + Flagged(qs[1..], flags[1..]);
    if k == 0 {
      forall j | 0 <= j < |qs[1..]| ensures qs[1..][j] != qs[0] {
        assert qs[1..][j] == qs[j + 1];
      }
    } else {
      assert qs[1..][k - 1] == qs[k];
      assert qs[0] != qs[k];
      FlaggedIff(qs[1..], flags[1..], k - 1);
    }
  }

  lemma {:induction false} FlaggedOrdered(qs: seq<string>, flags: seq<bool>, i: nat, j: nat)
    requires |qs| == |flags| && Distinct(qs)
    requires i < j < |Flagged(qs, flags)|
    ensures Position(qs, Flagged(qs, flags)[i]) < Position(qs, Flagged(qs, flags)[j])
  {
    var r := Flagged(qs, flags);
    var tail := Flagged(qs[1..], flags[1..]);
    var head := if flags[0] then [qs[0]] else [];
    assert r == head + tail;
    assert forall q | q in tail :: q != qs[0] by {
      forall q | q in tail ensures q != qs[0] {
        assert q in qs[1..];
        var m :| 0 <= m < |qs[1..]| && qs[1..][m] == q;
        assert qs[m + 1] == q;
      }
    }
    if flags[0] {
      assert r[j] == tail[j - 1];
      if i == 0 {
        assert r[i] == qs[0];
        assert tail[j - 1] in tail;
      } else {
        assert r[i] == tail[i - 1];
        assert tail[i - 1] in tail;
        assert tail[j - 1] in tail;
        FlaggedOrdered(qs[1..], flags[1..], i - 1, j - 1);
      }
    } else {
      assert r == tail;
      assert tail[i] in tail && tail[j] in tail;
      FlaggedOrdered(qs[1..], flags[1..], i, j);
    }
  }

  lemma QuestionsDistinct()
    ensures Distinct(AllQuestions)
  {
    assert |PlatformQuestion| == 30 && |AudienceQuestion| == 35;
    assert |DifferentiatorQuestion| == 50 && |ConcisenessQuestion| == 32;
  }

  /** At most the four questions are raised, and always in the page's fixed order. */
  lemma QuestionsInOrder(inputs: Inputs, pitch: string, i: nat, j: nat)
    requires i < j < |EmailTestQuestions(inputs, pitch)|
    ensures |EmailTestQuestions(inputs, pitch)| <= 4
    ensures Position(AllQuestions, EmailTestQuestions(inputs, pitch)[i])
            < Position(AllQuestions, EmailTestQuestions(inputs, pitch)[j])
  {
    QuestionsDistinct();
    FlaggedOrdered(AllQuestions, Flags(inputs, pitch), i, j);
  }

  lemma {:induction false} CountAbsent(s: string, c: char)
    requires c !in s
    ensures Count(s, c) == 0
  {
    if s != [] {
      assert s[0] != c;
      CountAbsent(s[1..], c);
    }
  }

  /** The conciseness test counts spaces: more than thirty pieces means at least thirty space characters. */
  lemma ConcisenessCountsSpaces(pitch: string)
    ensures AsksConciseness(pitch) <==> pitch != "" && Count(pitch, ' ') >= 30
  {
    SplitOnLength(pitch, ' ');
  }

  /** Words separated by newlines or tabs alone are never judged too long, however many there are. */
  lemma ConcisenessIgnoresOtherWhitespace(pitch: string)
    requires ' ' !in pitch
    ensures !AsksConciseness(pitch)
  {
    SplitOnLength(pitch, ' ');
    CountAbsent(pitch, ' ');
  }

  /** A vague-audience warning always comes with the audience question. */
  lemma VagueWarningAsksAudience(inputs: Inputs, w: string)
    requires Warn(Vague, w) in Warnings(inputs)
    ensures AsksAudience(inputs)
  {
    VagueWarningIff(inputs, w);
    VagueAudiencesAreTokens();
    SplitWsPiecesOccur(Lower(inputs.audience), w);
    assert |Lower(inputs.audience)| >= |w| > 0;
  }

  /**
   * The converse fails: the question tests substrings, the warning tokens,
   * so "superusers" raises the question but no warning.
   */
  lemma SuperusersExample(inputs: Inputs)
    requires inputs.audience == "superusers"
    ensures AsksAudience(inputs)
    ensures forall x | x in Warnings(inputs) :: x.kind != Vague
  {
    SuperusersAsks(inputs);
    SuperusersNotWarned(inputs);
  }

  lemma SuperusersAsks(inputs: Inputs)
    requires inputs.audience == "superusers"
    ensures AsksAudience(inputs)
  {
    SuperusersContainsUsers();
    assert VagueAudiences[4] == "users";
  }

  lemma SuperusersNotWarned(inputs: Inputs)
    requires inputs.audience == "superusers"
    ensures forall x | x in Warnings(inputs) :: x.kind != Vague
  {
    SuperusersIsOneToken();
    SuperusersIsNotListed();
    WarningsWellFormed(inputs);
    forall x | x in Warnings(inputs) ensures x.kind != Vague {
      if x.kind == Vague {
        VagueWarningIff(inputs, x.word);
      }
    }
  }

  lemma SuperusersIsNotListed()
    ensures "superusers" !in VagueAudiences
  {
    forall i | 0 <= i < |VagueAudiences| ensures VagueAudiences[i] != "superusers" {
      if |VagueAudiences[i]| == 10 {
        assert VagueAudiences[i][0] != 's';
      }
    }
  }

  lemma SuperusersContainsUsers()
    ensures Contains(Lower("superusers"), "users")
  {
    assert Lower("superusers") == "superusers";
    assert OccursAt("superusers", "users", 5) by {
      assert "superusers"[5..10] == "users";
    }
  }

  lemma SuperusersIsOneToken()
    ensures SplitWs(Lower("superusers")) == ["superusers"]
  {
    assert Lower("superusers") == "superusers";
    LettersAreNotSpace("superusers");
    SplitWsOfToken("superusers");
  }
}
