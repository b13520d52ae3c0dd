/**
 * The heuristic linter: every change to the seven input fields recomputes the
 * list of advisory warnings from three fixed wordlists, in three passes
 * (jargon by substring, superlatives by whole word, vague audiences by
 * audience token).
 */
module Lint {
  import opened Text

  /** Jargon terms, matched as case-insensitive substrings. */
  const Buzzwords: seq<string> := ["platform", "leverage", "synergy", "disrupt", "paradigm", "ecosystem",
    "scalable", "innovative", "cutting-edge", "revolutionary", "game-changing", "world-class", "next-gen",
    "ai-powered", "blockchain", "web3", "holistic", "robust", "seamless"]

  /** Superlatives, matched as whole words. */
  const Superlatives: seq<string> := ["first", "only", "best", "biggest", "fastest", "cheapest", "most",
    "leading", "top", "premier", "ultimate", "unrivaled", "unique"]

  /** Audiences too vague to pitch to, matched against the audience field's tokens. */
  const VagueAudiences: seq<string> := ["everyone", "businesses", "companies", "people", "users",
    "consumers", "customers", "organizations", "individuals"]

  /** The seven free-text fields, in the order the page declares them. */
  datatype Inputs = Inputs(companyName: string, offering: string, audience: string,
                           problemStatement: string, outcome: string, secretSauce: string,
                           analogy: string)

  /** `Object.values(inputs)`: the fields in declaration order. */
  function Values(inputs: Inputs): seq<string> {
    [inputs.companyName, inputs.offering, inputs.audience, inputs.problemStatement,
     inputs.outcome, inputs.secretSauce, inputs.analogy]
  }

  /** The text the first two passes scan: every field, joined with single spaces, lower-cased. */
  function AllText(inputs: Inputs): string {
    Lower(Join(Values(inputs), " "))
  }

  datatype Kind = Buzzword | Superlative | Vague

  datatype Warning = Warning(kind: Kind, word: string, message: string)

  function Wordlist(kind: Kind): seq<string> {
    match kind
    case Buzzword => Buzzwords
    case Superlative => Superlatives
    case Vague => VagueAudiences
  }

  /** The pass that emits warnings of this kind: 0, 1 or 2. */
  function Rank(kind: Kind): nat {
    match kind
    case Buzzword => 0
    case Superlative => 1
    case Vague => 2
  }

  function Message(kind: Kind, word: string): string {
    match kind
    case Buzzword => "\"" + word + "\" is jargon\U{2014}be more specific"
    case Superlative => "\"" + word + "\" signals inexperience\U{2014}let others say it"
    case Vague => "\"" + word + "\" is too vague as an audience"
  }

  /** The warning the pass `kind` emits for the term `word`. */
  function Warn(kind: Kind, word: string): Warning {
    Warning(kind, word, Message(kind, word))
  }

  /** The audience test: the whole lower-cased field is the term, or one of its `\s+`-separated tokens is. */
  predicate NamesAudience(audience: string, word: string)
    ensures NamesAudience(audience, word) ==> Contains(Lower(audience), word)
  {
    var lower := Lower(audience);
    assert OccursAt(lower, lower, 0);
    assert word in SplitWs(lower) ==> Contains(lower, word) by {
      if word in SplitWs(lower) { SplitWsPiecesOccur(lower, word); }
    }
    lower == word || word in SplitWs(lower)
  }

  /** Whether the term `word` of the pass `kind` fires on these inputs. */
  predicate Fires(kind: Kind, inputs: Inputs, word: string)
  {
    match kind
    case Buzzword => Contains(AllText(inputs), Lower(word))
    case Superlative => HasWholeWord(AllText(inputs), word)
    case Vague => inputs.audience != "" && NamesAudience(inputs.audience, word)
  }

  /** What the pass `kind` emits when it looks at the terms `ws`, in order. */
  function Pass(kind: Kind, inputs: Inputs, ws: seq<string>): (r: seq<Warning>)
    ensures |r| <= |ws|
  {
    if ws == [] then []
    else
      var word := ws[|ws| - 1];
      Pass(kind, inputs, ws[..|ws| - 1]) + (if Fires(kind, inputs, word) then [Warn(kind, word)] else [])
  }

  /** The warning list for these inputs: the three passes, one after the other. */
  function Warnings(inputs: Inputs): (r: seq<Warning>)
    ensures |r| <= |Buzzwords| + |Superlatives| + |VagueAudiences|
  {
    Pass(Buzzword, inputs, Buzzwords) + Pass(Superlative, inputs, Superlatives)
      + Pass(Vague, inputs, VagueAudiences)
  }

  /**
   * One `forEach` of the linter effect: looks at the terms `ws` in order and
   * pushes the warning of each term that fires. The vague-audience pass runs
   * only for a non-empty audience.
   */
  method RunPass(kind: Kind, inputs: Inputs, ws: seq<string>) returns (out: seq<Warning>)
    requires kind == Vague ==> inputs.audience != ""
    ensures out == Pass(kind, inputs, ws)
  {
    var allText := Lower(Join(Values(inputs), " "));
    var lower := Lower(inputs.audience);
    out := [];
    for i := 0 to |ws|
      invariant out == Pass(kind, inputs, ws[..i])
    {
      var word := ws[i];
      var hit := match kind
        case Buzzword => Contains(allText, Lower(word))
        case Superlative => HasWholeWord(allText, word)
        case Vague => lower == word || word in SplitWs(lower);
      assert hit == Fires(kind, inputs, word);
      if hit {
        out := out + [Warn(kind, word)];
      }
      assert ws[..i + 1][..i] == ws[..i];
    }
    assert ws[..|ws|] == ws;
  }

  /** The linter effect: the jargon pass, then the superlative pass, then (for a non-empty audience) the vague-audience pass. */
  method ComputeWarnings(inputs: Inputs) returns (warnings: seq<Warning>)
    ensures warnings == Warnings(inputs)
  {
    var jargon := RunPass(Buzzword, inputs, Buzzwords);
    var superlatives := RunPass(Superlative, inputs, Superlatives);
    var vague := [];
    if inputs.audience != "" {
      vague := RunPass(Vague, inputs, VagueAudiences);
    } else {
      SilentPass(Vague, inputs, VagueAudiences);
    }
    warnings := jargon + superlatives + vague;
  }

  /** A pass in which no term fires emits nothing. */
  lemma {:induction false} SilentPass(kind: Kind, inputs: Inputs, ws: seq<string>)
    requires forall w | w in ws :: !Fires(kind, inputs, w)
    ensures Pass(kind, inputs, ws) == []
  {
    if ws != [] { SilentPass(kind, inputs, ws[..|ws| - 1]); }
  }

  predicate Distinct(s: seq<string>) {
    forall i, j | 0 <= i < j < |s| :: s[i] != s[j]
  }

  /** The index of the first `w` in `ws`, or `|ws|`. */
  function Position(ws: seq<string>, w: string): nat {
    if ws == [] then 0 else if ws[0] == w then 0 else 1 + Position(ws[1..], w)
  }

  lemma {:induction false} PositionOfDistinct(ws: seq<string>, j: nat)
    requires Distinct(ws) && j < |ws|
    ensures Position(ws, ws[j]) == j
  {
    if j > 0 {
      assert ws[0] != ws[j];
      assert ws[1..][j - 1] == ws[j];
      PositionOfDistinct(ws[1..], j - 1);
    }
  }

  /** No wordlist repeats a term. */
  lemma WordlistsDistinct(kind: Kind)
    ensures Distinct(Wordlist(kind))
  {
    match kind {
      case Buzzword => BuzzwordsDistinct();
      case Superlative => SuperlativesDistinct();
      case Vague => VagueAudiencesDistinct();
    }
  }

  lemma BuzzwordsDistinct()
    ensures Distinct(Buzzwords)
  {
    var s := Buzzwords;
    assert s[0] == "platform" && s[4] == "paradigm";
    forall i, j | 0 <= i < j < |s| ensures s[i] != s[j] {
      if |s[i]| == |s[j]| {
        assert s[i][0] != s[j][0] || s[i][1] != s[j][1];
      }
    }
  }

  lemma SuperlativesDistinct()
    ensures Distinct(Superlatives)
  {
    var s := Superlatives;
    forall i, j | 0 <= i < j < |s| ensures s[i] != s[j] {
      if |s[i]| == |s[j]| {
        assert s[i][0] != s[j][0];
      }
    }
  }

  lemma VagueAudiencesDistinct()
    ensures Distinct(VagueAudiences)
  {
    var s := VagueAudiences;
    assert s[2] == "companies" && s[5] == "consumers" && s[6] == "customers";
    forall i, j | 0 <= i < j < |s| ensures s[i] != s[j] {
      if |s[i]| == |s[j]| {
        assert s[i][0] != s[j][0] || s[i][1] != s[j][1] || s[i][2] != s[j][2];
      }
    }
  }

  /** Every warning a pass emits is the warning of one of its terms, and that term fires. */
  lemma {:induction false} PassSound(kind: Kind, inputs: Inputs, ws: seq<string>)
    ensures forall x | x in Pass(kind, inputs, ws) ::
              x == Warn(kind, x.word) && x.word in ws && Fires(kind, inputs, x.word)
  {
    if ws != [] {
      PassSound(kind, inputs, ws[..|ws| - 1]);
    }
  }

  /** Every term of a pass that fires has its warning emitted. */
  lemma {:induction false} PassComplete(kind: Kind, inputs: Inputs, ws: seq<string>)
    ensures forall w | w in ws && Fires(kind, inputs, w) :: Warn(kind, w) in Pass(kind, inputs, ws)
  {
    if ws != [] {
      var init := ws[..|ws| - 1];
      PassComplete(kind, inputs, init);
      assert ws == init + [ws[|ws| - 1]];
    }
  }

  /** A pass over distinct terms emits its warnings in the terms' order, so never twice for one term. */
  lemma {:induction false} PassOrdered(kind: Kind, inputs: Inputs, ws: seq<string>)
    requires Distinct(ws)
    ensures forall a, b | 0 <= a < b < |Pass(kind, inputs, ws)| ::
              Position(ws, Pass(kind, inputs, ws)[a].word) < Position(ws, Pass(kind, inputs, ws)[b].word)
  {
    if ws != [] {
      var n := |ws|;
      var init := ws[..n - 1];
      var prev := Pass(kind, inputs, init);
      assert Distinct(init);
      PassOrdered(kind, inputs, init);
      PassSound(kind, inputs, init);
      PositionOfDistinct(ws, n - 1);
      forall a | 0 <= a < |prev| ensures Position(ws, prev[a].word) == Position(init, prev[a].word) < n - 1 {
        assert prev[a] in prev;
        PositionInPrefix(ws, n - 1, prev[a].word);
      }
    }
  }

  /** Positions of terms of a prefix are the same in the whole list. */
  lemma {:induction false} PositionInPrefix(ws: seq<string>, k: nat, w: string)
    requires k <= |ws| && w in ws[..k]
    ensures Position(ws, w) == Position(ws[..k], w) < k
  {
    if ws[0] != w {
      assert ws[1..][..k - 1] == ws[..k][1..];
      PositionInPrefix(ws[1..], k - 1, w);
    }
  }

  /** Every entry of the list is the standard warning of its pass for its term. */
  lemma WarningsWellFormed(inputs: Inputs)
    ensures forall x | x in Warnings(inputs) :: x == Warn(x.kind, x.word) && x.word in Wordlist(x.kind)
  {
    PassSound(Buzzword, inputs, Buzzwords);
    PassSound(Superlative, inputs, Superlatives);
    PassSound(Vague, inputs, VagueAudiences);
  }

  /** The list warns about a term exactly when the term is on its pass's wordlist and fires. */
  lemma WarningIff(inputs: Inputs, kind: Kind, w: string)
    ensures Warn(kind, w) in Warnings(inputs) <==> w in Wordlist(kind) && Fires(kind, inputs, w)
  {
    var x := Warn(kind, w);
    var pb, ps, pv := Pass(Buzzword, inputs, Buzzwords), Pass(Superlative, inputs, Superlatives),
                      Pass(Vague, inputs, VagueAudiences);
    assert Warnings(inputs) == pb + ps + pv;
    assert x in Warnings(inputs) <==> x in pb || x in ps || x in pv;
    PassSound(Buzzword, inputs, Buzzwords);
    PassSound(Superlative, inputs, Superlatives);
    PassSound(Vague, inputs, VagueAudiences);
    PassComplete(kind, inputs, Wordlist(kind));
    match kind {
      case Buzzword => assert x !in ps && x !in pv;
      case Superlative => assert x !in pb && x !in pv;
      case Vague => assert x !in pb && x !in ps;
    }
  }

  /** `a` sorts strictly before `b`: an earlier pass, or the same pass and an earlier wordlist term. */
  predicate Before(a: Warning, b: Warning) {
    Rank(a.kind) < Rank(b.kind)
    || (a.kind == b.kind && Position(Wordlist(a.kind), a.word) < Position(Wordlist(a.kind), b.word))
  }

  predicate Sorted(ws: seq<Warning>) {
    forall a, b | 0 <= a < b < |ws| :: Before(ws[a], ws[b])
  }

  lemma SortedConcat(xs: seq<Warning>, ys: seq<Warning>)
    requires Sorted(xs) && Sorted(ys)
    requires forall x, y | x in xs && y in ys :: Before(x, y)
    ensures Sorted(xs + ys)
  {
    var zs := xs + ys;
    forall a, b | 0 <= a < b < |zs| ensures Before(zs[a], zs[b]) {
      if b < |xs| {
        assert zs[a] == xs[a] && zs[b] == xs[b];
      } else if a < |xs| {
        assert zs[a] == xs[a] && zs[a] in xs;
        assert zs[b] == ys[b - |xs|] && zs[b] in ys;
      } else {
        assert zs[a] == ys[a - |xs|] && zs[b] == ys[b - |xs|];
      }
    }
  }

  /** One pass over its wordlist is sorted. */
  lemma PassSorted(kind: Kind, inputs: Inputs)
    ensures Sorted(Pass(kind, inputs, Wordlist(kind)))
    ensures forall x | x in Pass(kind, inputs, Wordlist(kind)) :: x.kind == kind
  {
    var p := Pass(kind, inputs, Wordlist(kind));
    WordlistsDistinct(kind);
    PassOrdered(kind, inputs, Wordlist(kind));
    PassSound(kind, inputs, Wordlist(kind));
    forall a, b | 0 <= a < b < |p| ensures Before(p[a], p[b]) {
      assert p[a] in p && p[b] in p;
    }
  }

  /**
   * The list is strictly sorted: jargon warnings first, then superlatives,
   * then vague audiences, each pass in wordlist order.
   */
  lemma WarningsOrdered(inputs: Inputs)
    ensures Sorted(Warnings(inputs))
  {
    var pb, ps, pv := Pass(Buzzword, inputs, Buzzwords), Pass(Superlative, inputs, Superlatives),
                      Pass(Vague, inputs, VagueAudiences);
    PassSorted(Buzzword, inputs);
    PassSorted(Superlative, inputs);
    PassSorted(Vague, inputs);
    SortedConcat(pb, ps);
    forall x, y | x in pb + ps && y in pv ensures Before(x, y) {}
    SortedConcat(pb + ps, pv);
  }

  /**
   * At most one warning per wordlist term, so never more than
   * 19 + 13 + 9 = 41 warnings.
   */
  lemma WarningsBounded(inputs: Inputs)
    ensures |Warnings(inputs)| <= |Buzzwords| + |Superlatives| + |VagueAudiences| == 41
    ensures forall a, b | 0 <= a < b < |Warnings(inputs)| ::
              Warnings(inputs)[a].kind != Warnings(inputs)[b].kind
              || Warnings(inputs)[a].word != Warnings(inputs)[b].word
  {
    WarningsOrdered(inputs);
  }

  /** The lower-cased joined text holds each lower-cased field between spaces (or an end of the text). */
  lemma AllTextAround(inputs: Inputs, k: nat) returns (pre: string, post: string)
    requires k < 7
    ensures AllText(inputs) == pre + Lower(Values(inputs)[k]) + post
    ensures pre == [] || pre[|pre| - 1] == ' '
    ensures post == [] || post[0] == ' '
  {
    var vs := Values(inputs);
    var before, after := JoinedBefore(vs[..k], " "), JoinedAfter(vs[k + 1..], " ");
    JoinAround(vs, " ", k);
    LowerConcat(before + vs[k], after);
    LowerConcat(before, vs[k]);
    pre, post := Lower(before), Lower(after);
  }

  /** A jargon term inside any one field (in any letter case) draws its warning. */
  lemma FieldJargon(inputs: Inputs, k: nat, w: string)
    requires k < 7 && w in Buzzwords
    requires Contains(Lower(Values(inputs)[k]), Lower(w))
    ensures Warn(Buzzword, w) in Warnings(inputs)
  {
    var pre, post := AllTextAround(inputs, k);
    ContainsInContext(pre, Lower(Values(inputs)[k]), post, Lower(w));
    WarningIff(inputs, Buzzword, w);
  }

  /** A superlative standing as a whole word inside any one field draws its warning. */
  lemma FieldSuperlative(inputs: Inputs, k: nat, w: string)
    requires k < 7 && w in Superlatives
    requires HasWholeWord(Lower(Values(inputs)[k]), w)
    ensures Warn(Superlative, w) in Warnings(inputs)
  {
    var pre, post := AllTextAround(inputs, k);
    WholeWordInContext(pre, Lower(Values(inputs)[k]), post, w);
    WarningIff(inputs, Superlative, w);
  }

  /**
   * A superlative is flagged exactly when it stands as a whole word inside
   * one of the lower-cased fields: the single spaces that join the fields
   * never let a match span two of them.
   */
  lemma SuperlativeWarningIff(inputs: Inputs, w: string)
    ensures Warn(Superlative, w) in Warnings(inputs)
            <==> w in Superlatives && exists k | 0 <= k < 7 :: HasWholeWord(Lower(Values(inputs)[k]), w)
  {
    WarningIff(inputs, Superlative, w);
    if w in Superlatives {
      SuperlativesAreWords();
      WholeWordInJoin(Values(inputs), w);
      if exists k | 0 <= k < 7 :: HasWholeWord(Lower(Values(inputs)[k]), w) {
        var k :| 0 <= k < 7 && HasWholeWord(Lower(Values(inputs)[k]), w);
        FieldSuperlative(inputs, k, w);
      }
    }
  }

  lemma SuperlativesAreWords()
    ensures forall w | w in Superlatives :: IsWord(w)
  {
    forall i | 0 <= i < |Superlatives| ensures IsWord(Superlatives[i]) {
      LettersAreWordChars(Superlatives[i]);
    }
  }

  lemma LettersAreWordChars(s: string)
    requires s != [] && forall i | 0 <= i < |s| :: 'a' <= s[i] <= 'z'
    ensures IsWord(s)
  {
  }

  /** "Platform" anywhere in any field draws the warning for "platform". */
  lemma PlatformIsJargon(inputs: Inputs, k: nat)
    requires k < 7 && Contains(Values(inputs)[k], "Platform")
    ensures Warn(Buzzword, "platform") in Warnings(inputs)
  {
    var f := Values(inputs)[k];
    var i :| 0 <= i <= |f| - 8 && OccursAt(f, "Platform", i);
    assert Lower("platform") == "platform";
    assert Lower(f)[i..i + 8] == "platform" by {
      forall j | 0 <= j < 8 ensures Lower(f)[i..i + 8][j] == "platform"[j] {
        assert f[i + j] == "Platform"[j];
      }
    }
    assert OccursAt(Lower(f), "platform", i);
    assert Buzzwords[0] == "platform";
    FieldJargon(inputs, k, "platform");
  }

  /** Whole-word matching: "the first mover" holds the word "first". */
  lemma FirstMoverHasFirst()
    ensures HasWholeWord("the first mover", "first")
  {
    assert OccursAt("the first mover", "first", 4);
    assert IsBoundary("the first mover", 4) && IsBoundary("the first mover", 9);
  }

  /** Whole-word matching: a hyphen is a word boundary, so "top-notch" holds the word "top". */
  lemma TopNotchHasTop()
    ensures HasWholeWord("top-notch", "top")
  {
    assert OccursAt("top-notch", "top", 0);
    assert IsBoundary("top-notch", 0) && IsBoundary("top-notch", 3);
  }

  /** Whole-word matching: "firstly" does not hold the word "first". */
  lemma FirstlyLacksFirst()
    ensures !HasWholeWord("firstly", "first")
  {
    assert !IsBoundary("firstly", 5);
    forall i | 1 <= i <= 2 ensures !OccursAt("firstly", "first", i) {
      assert "firstly"[i] != 'f';
    }
  }

  /** Fields that are empty or "firstly" draw no warning for "first". */
  lemma FirstlyExample(inputs: Inputs)
    requires forall k | 0 <= k < 7 :: Values(inputs)[k] == "" || Values(inputs)[k] == "firstly"
    ensures Warn(Superlative, "first") !in Warnings(inputs)
  {
    SuperlativeWarningIff(inputs, "first");
    LowerFirstly();
    FirstlyLacksFirst();
    forall k | 0 <= k < 7 ensures !HasWholeWord(Lower(Values(inputs)[k]), "first") {
      if Values(inputs)[k] == "" {
        assert Lower(Values(inputs)[k]) == "";
      }
    }
  }

  /** A field "the first mover" draws the warning for "first". */
  lemma FirstMoverExample(inputs: Inputs, k: nat)
    requires k < 7 && Values(inputs)[k] == "the first mover"
    ensures Warn(Superlative, "first") in Warnings(inputs)
  {
    FirstMoverHasFirst();
    assert Superlatives[0] == "first";
    LowerFirstMover();
    FieldSuperlative(inputs, k, "first");
  }

  /** A field "top-notch" draws the warning for "top". */
  lemma TopNotchExample(inputs: Inputs, k: nat)
    requires k < 7 && Values(inputs)[k] == "top-notch"
    ensures Warn(Superlative, "top") in Warnings(inputs)
  {
    TopNotchHasTop();
    assert Superlatives[8] == "top";
    LowerTopNotch();
    FieldSuperlative(inputs, k, "top");
  }

  /**
   * The audience test is a token test: for a term without whitespace,
   * the empty-field guard and the whole-field comparison add nothing to
   * "the term is one of the field's `\s+`-separated tokens".
   */
  lemma AudienceTestIsTokenTest(audience: string, w: string)
    requires w != [] && NoSpace(w)
    ensures (audience != [] && NamesAudience(audience, w)) <==> w in SplitWs(Lower(audience))
  {
    var lower := Lower(audience);
    if lower == w { SplitWsOfToken(w); }
    if audience == [] {
      assert lower == [];
      SplitWsOfToken([]);
    }
  }

  lemma VagueAudiencesAreTokens()
    ensures forall w | w in VagueAudiences :: w != [] && NoSpace(w)
  {
    forall i | 0 <= i < |VagueAudiences| ensures VagueAudiences[i] != [] && NoSpace(VagueAudiences[i]) {
      LettersAreNotSpace(VagueAudiences[i]);
    }
  }

  /** A vague-audience warning for `w` is emitted exactly when `w` is one of the audience field's tokens. */
  lemma VagueWarningIff(inputs: Inputs, w: string)
    ensures Warn(Vague, w) in Warnings(inputs) <==> w in VagueAudiences && w in SplitWs(Lower(inputs.audience))
  {
    WarningIff(inputs, Vague, w);
    VagueAudiencesAreTokens();
    if w in VagueAudiences {
      AudienceTestIsTokenTest(inputs.audience, w);
    }
  }

  /** The example tokens hold no whitespace. */
  lemma TokenExamples()
    ensures NoSpace("small") && NoSpace("businesses") && NoSpace("dentists")
  {
    LettersAreNotSpace("small");
    LettersAreNotSpace("businesses");
    LettersAreNotSpace("dentists");
  }

  lemma LettersAreNotSpace(s: string)
    requires forall i | 0 <= i < |s| :: 'a' <= s[i] <= 'z'
    ensures NoSpace(s)
  {
  }

  /** The audience "businesses" is vague. */
  lemma BusinessesExample(inputs: Inputs)
    requires inputs.audience == "businesses"
    ensures Warn(Vague, "businesses") in Warnings(inputs)
  {
    VagueAudiencesAreTokens();
    assert VagueAudiences[1] == "businesses";
    LowerBusinesses();
    SplitWsOfToken("businesses");
    VagueWarningIff(inputs, "businesses");
  }

  /** The audience "small businesses" is vague through its token "businesses". */
  lemma SmallBusinessesExample(inputs: Inputs)
    requires inputs.audience == "small businesses"
    ensures Warn(Vague, "businesses") in Warnings(inputs)
  {
    var small, businesses := "small", "businesses";
    VagueAudiencesAreTokens();
    assert VagueAudiences[1] == businesses;
    LowerSmallBusinesses();
    TokenExamples();
    assert Lower(inputs.audience) == small + " " + businesses;
    SplitWsTwoTokens(small, businesses);
    VagueWarningIff(inputs, businesses);
  }

  /** The audience "dentists" is specific: no vague-audience warning. */
  lemma DentistsExample(inputs: Inputs)
    requires inputs.audience == "dentists"
    ensures forall x | x in Warnings(inputs) :: x.kind != Vague
  {
    LowerDentists();
    TokenExamples();
    SplitWsOfToken("dentists");
    DentistsIsNotListed();
    WarningsWellFormed(inputs);
    forall x | x in Warnings(inputs) ensures x.kind != Vague {
      if x.kind == Vague {
        VagueWarningIff(inputs, x.word);
      }
    }
  }

  lemma DentistsIsNotListed()
    ensures "dentists" !in VagueAudiences
  {
    forall i | 0 <= i < |VagueAudiences| ensures VagueAudiences[i] != "dentists" {
      if |VagueAudiences[i]| == 8 {
        assert VagueAudiences[i][0] != 'd';
      }
    }
  }

  lemma LowerFirstMover()
    ensures Lower("the first mover") == "the first mover"
  {
  }

  lemma LowerFirstly()
    ensures Lower("firstly") == "firstly"
  {
  }

  lemma LowerTopNotch()
    ensures Lower("top-notch") == "top-notch"
  {
  }

  lemma LowerBusinesses()
    ensures Lower("businesses") == "businesses"
  {
  }

  lemma LowerSmallBusinesses()
    ensures Lower("small businesses") == "small businesses"
  {
  }

  lemma LowerDentists()
    ensures Lower("dentists") == "dentists"
  {
  }
}
