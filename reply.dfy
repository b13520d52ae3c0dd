/**
 * What the page does with the model's replies: cleaning up a generated pitch,
 * stripping code fences before the critique reply is parsed, turning the
 * parse result into the suggestion list, and applying one suggestion to the
 * pitch.
 */
module Reply {
  import opened Wrappers
  import opened Text

  predicate IsQuote(c: char) {
    c == '"' || c == '\''
  }

  /**
   * `s.replace(/^["']|["']$/g, '')`: a straight quote at the start and one at
   * the end are removed, each on its own.
   */
  function StripQuotes(s: string): (r: string)
    ensures |s| - 2 <= |r| <= |s|
    ensures |s| > 0 && !IsQuote(s[0]) ==> r <= s
    ensures |s| > 0 && !IsQuote(s[|s| - 1]) ==> r == s[|s| - |r|..]
    ensures |s| > 0 && !IsQuote(s[0]) && !IsQuote(s[|s| - 1]) ==> r == s
    ensures |s| > 0 && IsQuote(s[0]) && !IsQuote(s[|s| - 1]) ==> r == s[1..]
    ensures |s| > 0 && !IsQuote(s[0]) && IsQuote(s[|s| - 1]) ==> r == s[..|s| - 1]
    ensures |s| >= 2 && IsQuote(s[0]) && IsQuote(s[|s| - 1]) ==> r == s[1..|s| - 1]
    ensures |s| == 1 && IsQuote(s[0]) ==> r == []
  {
    var t := if |s| > 0 && IsQuote(s[0]) then s[1..] else s;
    if |t| > 0 && IsQuote(t[|t| - 1]) then t[..|t| - 1] else t
  }

  /** The pitch shown after generation: the reply's text, trimmed, then stripped of its quotes. */
  function CleanPitch(text: string): (r: string)
    ensures |r| <= |text|
    ensures AllSpace(text) ==> r == []
    ensures (text != [] && !IsSpace(text[0]) && !IsSpace(text[|text| - 1])
             && !IsQuote(text[0]) && !IsQuote(text[|text| - 1])) ==> r == text
  {
    TrimOfBlankOrPlain(text);
    StripQuotes(Trim(text))
  }

  /** `trim` empties a blank text and keeps a text with no whitespace at its ends. */
  lemma TrimOfBlankOrPlain(text: string)
    ensures AllSpace(text) ==> Trim(text) == []
    ensures text != [] && !IsSpace(text[0]) && !IsSpace(text[|text| - 1]) ==> Trim(text) == text
  {
    if AllSpace(text) {
      TrimUnique(text, [], []);
      assert text + [] + [] == text;
    }
    if text != [] && !IsSpace(text[0]) && !IsSpace(text[|text| - 1]) {
      TrimUnique([], text, []);
      assert [] + text + [] == text;
    }
  }

  lemma StripQuotesOfQuoted(q1: char, pitch: string, q2: char)
    requires IsQuote(q1) && IsQuote(q2)
    ensures StripQuotes([q1] + pitch + [q2]) == pitch
  {
    var s := [q1] + pitch + [q2];
    assert s[0] == q1;
    var t := s[1..];
    assert t == pitch + [q2];
    assert t[|t| - 1] == q2;
    assert t[..|t| - 1] == pitch;
  }

  /** A pitch the model wrapped in quotes (and whitespace) comes out exactly as written inside them. */
  lemma CleanPitchUnquotes(lead: string, q1: char, pitch: string, q2: char, trail: string)
    requires AllSpace(lead) && AllSpace(trail) && IsQuote(q1) && IsQuote(q2)
    ensures CleanPitch(lead + [q1] + pitch + [q2] + trail) == pitch
  {
    var m := [q1] + pitch + [q2];
    assert lead + [q1] + pitch + [q2] + trail == lead + m + trail;
    assert !IsSpace(m[0]) && !IsSpace(m[|m| - 1]);
    TrimUnique(lead, m, trail);
    StripQuotesOfQuoted(q1, pitch, q2);
  }

  /** A pitch without surrounding whitespace or quotes comes out unchanged. */
  lemma CleanPitchKeepsPlainPitch(lead: string, pitch: string, trail: string)
    requires AllSpace(lead) && AllSpace(trail)
    requires pitch == [] || (!IsSpace(pitch[0]) && !IsSpace(pitch[|pitch| - 1])
                             && !IsQuote(pitch[0]) && !IsQuote(pitch[|pitch| - 1]))
    ensures CleanPitch(lead + pitch + trail) == pitch
  {
    TrimUnique(lead, pitch, trail);
    StripQuotesOfPlain(pitch);
  }

  lemma StripQuotesOfPlain(pitch: string)
    requires pitch == [] || (!IsQuote(pitch[0]) && !IsQuote(pitch[|pitch| - 1]))
    ensures StripQuotes(pitch) == pitch
  {
  }

  /** Text without whitespace at its ends is only stripped of its quotes. */
  lemma CleanPitchOfTrimmed(t: string)
    requires t != [] && !IsSpace(t[0]) && !IsSpace(t[|t| - 1])
    ensures CleanPitch(t) == StripQuotes(t)
  {
    TrimUnique([], t, []);
    assert [] + t + [] == t;
  }

  /** A quote at the start only is removed on its own: `"pitch` comes out as `pitch`. */
  lemma CleanPitchStripsLeadingQuote(q: char, pitch: string)
    requires IsQuote(q) && pitch != []
    requires !IsSpace(pitch[|pitch| - 1]) && !IsQuote(pitch[|pitch| - 1])
    ensures CleanPitch([q] + pitch) == pitch
  {
    var a := [q] + pitch;
    assert a[0] == q && a[|a| - 1] == pitch[|pitch| - 1];
    CleanPitchOfTrimmed(a);
    assert a[1..] == pitch;
  }

  /** A quote at the end only is removed on its own: `pitch'` comes out as `pitch`. */
  lemma CleanPitchStripsTrailingQuote(pitch: string, q: char)
    requires IsQuote(q) && pitch != []
    requires !IsSpace(pitch[0]) && !IsQuote(pitch[0])
    ensures CleanPitch(pitch + [q]) == pitch
  {
    var b := pitch + [q];
    assert b[0] == pitch[0] && b[|b| - 1] == q;
    CleanPitchOfTrimmed(b);
    assert b[..|b| - 1] == pitch;
  }

  /** A reply that is a lone quote cleans to the empty pitch. */
  lemma CleanPitchOfLoneQuote(q: char)
    requires IsQuote(q)
    ensures CleanPitch([q]) == []
  {
    TrimUnique([], [q], []);
    assert [] + [q] + [] == [q];
  }

  /** Only one quote goes from each end: a doubly quoted pitch keeps its inner quotes. */
  lemma CleanPitchStripsOneQuotePerEnd(pitch: string)
    ensures CleanPitch("\"\"" + pitch + "\"\"") == "\"" + pitch + "\""
  {
    CleanPitchUnquotes([], '"', "\"" + pitch + "\"", '"', []);
    assert [] + ['"'] + ("\"" + pitch + "\"") + ['"'] + [] == "\"\"" + pitch + "\"\"";
  }

  /**
   * `s.replace(new RegExp(marker + '\n?', 'g'), '')`: every occurrence of
   * `marker`, together with a newline right after it, removed in one
   * left-to-right scan.
   */
  function RemoveMarker(s: string, marker: string): (r: string)
    requires marker != []
    ensures |r| <= |s|
    decreases |s|
  {
    if s == [] then []
    else if marker <= s then
      var rest := s[|marker|..];
      RemoveMarker(if rest != [] && rest[0] == '\n' then rest[1..] else rest, marker)
    else [s[0]] + RemoveMarker(s[1..], marker)
  }

  const JsonFence: string := "```json"
  const Fence: string := "```"

  /** The critique reply as handed to `JSON.parse`: fence markers removed, then trimmed. */
  function StripFences(text: string): (r: string)
    ensures |r| <= |text|
    ensures r == [] || (!IsSpace(r[0]) && !IsSpace(r[|r| - 1]))
  {
    Trim(RemoveMarker(RemoveMarker(text, JsonFence), Fence))
  }

  /** Text without a backtick passes through the marker removal untouched. */
  lemma {:induction false} RemoveMarkerKeepsPlainText(x: string, y: string, marker: string)
    requires marker != [] && marker[0] == '`' && '`' !in x
    ensures RemoveMarker(x + y, marker) == x + RemoveMarker(y, marker)
  {
    if x != [] {
      assert (x + y)[0] == x[0];
      assert (x + y)[1..] == x[1..] + y;
      RemoveMarkerKeepsPlainText(x[1..], y, marker);
    } else {
      assert x + y == y;
    }
  }

  /** A text shorter than the marker cannot hold it. */
  lemma {:induction false} RemoveMarkerShort(s: string, marker: string)
    requires marker != [] && |s| < |marker|
    ensures RemoveMarker(s, marker) == s
  {
    if s != [] {
      RemoveMarkerShort(s[1..], marker);
    }
  }

  /** One leading character that does not start the marker is kept. */
  lemma RemoveMarkerKeepsHead(c: char, y: string, marker: string)
    requires marker != [] && !(marker <= [c] + y)
    ensures RemoveMarker([c] + y, marker) == [c] + RemoveMarker(y, marker)
  {
    assert ([c] + y)[1..] == y;
  }

  predicate IsOpeningFence(open: string) {
    open == "```json\n" || open == "```\n"
  }

  predicate IsClosingFence(close: string) {
    close == "```" || close == "\n```"
  }

  /** The closing fence disappears, leaving at most a newline. */
  lemma StripClosingFence(close: string)
    requires IsClosingFence(close)
    ensures RemoveMarker(close, JsonFence) == close
    ensures AllSpace(RemoveMarker(close, Fence))
  {
    RemoveMarkerShort(close, JsonFence);
    if close == "\n```" {
      RemoveMarkerKeepsHead('\n', "```", Fence);
      assert close == ['\n'] + "```";
    }
  }

  /** A prefix inside which no marker starts passes through the marker removal untouched. */
  lemma {:induction false} RemoveMarkerKeepsPrefix(x: string, y: string, marker: string)
    requires marker != [] && forall i | 0 <= i < |x| :: !(marker <= x[i..] + y)
    ensures RemoveMarker(x + y, marker) == x + RemoveMarker(y, marker)
  {
    if x == [] {
      assert x + y == y;
    } else {
      assert x[0..] == x;
      assert (x + y)[0] == x[0] && (x + y)[1..] == x[1..] + y;
      forall i | 0 <= i < |x[1..]| ensures !(marker <= x[1..][i..] + y) {
        assert x[1..][i..] == x[i + 1..];
      }
      RemoveMarkerKeepsPrefix(x[1..], y, marker);
    }
  }

  /** The opening fence "```\n" is not a "```json" marker. */
  lemma PlainOpeningFenceSurvivesJsonPass(y: string)
    ensures RemoveMarker("```\n" + y, JsonFence) == "```\n" + RemoveMarker(y, JsonFence)
  {
    var x := "```\n";
    forall i | 0 <= i < |x| ensures !(JsonFence <= x[i..] + y) {
      assert (x[i..] + y)[3 - i] == '\n';
      assert JsonFence[3 - i] != '\n';
    }
    RemoveMarkerKeepsPrefix(x, y, JsonFence);
  }

  /** Without backticks, fence stripping is just `trim`. */
  lemma StripFencesOfPlainText(body: string)
    requires '`' !in body
    ensures StripFences(body) == Trim(body)
  {
    RemoveMarkerKeepsPlainText(body, [], JsonFence);
    RemoveMarkerKeepsPlainText(body, [], Fence);
    assert body + [] == body;
  }

  /** A marker at the head of the text goes, with the newline that follows it. */
  lemma RemoveMarkerAtHead(marker: string, y: string)
    requires marker != []
    ensures RemoveMarker(marker + "\n" + y, marker) == RemoveMarker(y, marker)
  {
    var s := marker + "\n" + y;
    assert marker <= s;
    assert s[|marker|..] == "\n" + y;
    assert ("\n" + y)[1..] == y;
  }

  /** No occurrence of `marker` starts in `s` and runs on into `t`. */
  predicate NoStraddle(s: string, t: string, marker: string) {
    forall i | 0 <= i < |s| :: marker <= s[i..] + t ==> marker <= s[i..]
  }

  lemma NoStraddleSuffix(s: string, t: string, marker: string, k: nat)
    requires k <= |s| && NoStraddle(s, t, marker)
    ensures NoStraddle(s[k..], t, marker)
  {
    forall i | 0 <= i < |s[k..]| ensures s[k..][i..] == s[k + i..] {
    }
  }

  /**
   * Marker removal over `s + t` is the removal over each part, except that a
   * marker ending `s` may also take the newline that starts `t`.
   */
  predicate SplitsAt(s: string, t: string, marker: string)
    requires marker != []
  {
    RemoveMarker(s + t, marker) == RemoveMarker(s, marker) + RemoveMarker(t, marker)
    || (t != [] && t[0] == '\n'
        && RemoveMarker(s + t, marker) == RemoveMarker(s, marker) + RemoveMarker(t[1..], marker))
  }

  /** Over two parts that no marker straddles, marker removal works part by part. */
  lemma {:induction false} RemoveMarkerAppend(s: string, t: string, marker: string)
    requires marker != [] && NoStraddle(s, t, marker)
    ensures SplitsAt(s, t, marker)
    decreases |s|
  {
    if s == [] {
      assert s + t == t;
    } else if marker <= s && |s| == |marker| {
      MarkerEndsText(s, t, marker);
    } else {
      var next, head := ScanStep(s, t, marker);
      RemoveMarkerAppend(next, t, marker);
      SplitsFromNext(s, next, t, marker, head);
    }
  }

  /** A text that is exactly the marker vanishes, and may take the newline that follows it. */
  lemma MarkerEndsText(s: string, t: string, marker: string)
    requires marker != [] && marker <= s && |s| == |marker|
    ensures SplitsAt(s, t, marker)
  {
    assert s[|marker|..] == [];
    assert (s + t)[..|marker|] == s;
    assert (s + t)[|marker|..] == t;
  }

  /** The scans over `s` and `s + t` both emit `head`, then go on from `next` and `next + t`. */
  lemma SplitsFromNext(s: string, next: string, t: string, marker: string, head: string)
    requires marker != [] && SplitsAt(next, t, marker)
    requires RemoveMarker(s, marker) == head + RemoveMarker(next, marker)
    requires RemoveMarker(s + t, marker) == head + RemoveMarker(next + t, marker)
    ensures SplitsAt(s, t, marker)
  {
    var a := RemoveMarker(next, marker);
    if RemoveMarker(next + t, marker) == a + RemoveMarker(t, marker) {
      Regroup(head, a, RemoveMarker(t, marker));
    } else {
      Regroup(head, a, RemoveMarker(t[1..], marker));
    }
  }

  lemma Regroup(head: string, a: string, b: string)
    ensures head + (a + b) == head + a + b
  {
  }

  /**
   * One step of the scan over `s` and over `s + t` alike, when it does not
   * end `s` with a marker: both emit `head` and continue from `next` and
   * `next + t`.
   */
  lemma ScanStep(s: string, t: string, marker: string) returns (next: string, head: string)
    requires marker != [] && s != [] && NoStraddle(s, t, marker)
    requires !(marker <= s && |s| == |marker|)
    ensures |next| < |s| && NoStraddle(next, t, marker)
    ensures RemoveMarker(s, marker) == head + RemoveMarker(next, marker)
    ensures RemoveMarker(s + t, marker) == head + RemoveMarker(next + t, marker)
  {
    if marker <= s {
      head := [];
      next := MatchStep(s, t, marker);
    } else {
      head := [s[0]];
      next := s[1..];
      assert s[0..] == s;
      assert (s + t)[0] == s[0] && (s + t)[1..] == next + t;
      NoStraddleSuffix(s, t, marker, 1);
    }
  }

  /**
   * A marker made of one repeated character (not a newline), appended to a
   * text, is removed again without touching the text: it either stands alone
   * or joins a run of that character whose leftover is as long as before.
   */
  lemma {:induction false} RemoveTrailingMarker(x: string, marker: string)
    requires marker != [] && marker[0] != '\n'
    requires forall j | 0 <= j < |marker| :: marker[j] == marker[0]
    ensures RemoveMarker(x + marker, marker) == RemoveMarker(x, marker)
    decreases |x|
  {
    var s := x + marker;
    if x == [] {
      assert s == marker && s[|marker|..] == [];
    } else if marker <= x {
      var rest := x[|marker|..];
      assert s[..|marker|] == x[..|marker|];
      assert s[|marker|..] == rest + marker;
      if rest == [] {
        assert rest + marker == marker;
        RemoveTrailingMarker([], marker);
        assert [] + marker == marker;
      } else if rest[0] == '\n' {
        assert (rest + marker)[1..] == rest[1..] + marker;
        RemoveTrailingMarker(rest[1..], marker);
      } else {
        RemoveTrailingMarker(rest, marker);
      }
    } else if |x| < |marker| && marker <= s {
      MarkerJoinsRun(x, marker);
    } else {
      assert !(marker <= s) by {
        if |x| >= |marker| {
          assert s[..|marker|] == x[..|marker|];
        }
      }
      assert s[0] == x[0] && s[1..] == x[1..] + marker;
      RemoveTrailingMarker(x[1..], marker);
    }
  }

  /** The scan step at a marker that does not end `s`: both scans skip it, and a newline after it. */
  lemma MatchStep(s: string, t: string, marker: string) returns (next: string)
    requires marker != [] && NoStraddle(s, t, marker) && marker <= s && |s| != |marker|
    ensures |next| < |s| && NoStraddle(next, t, marker)
    ensures RemoveMarker(s, marker) == RemoveMarker(next, marker)
    ensures RemoveMarker(s + t, marker) == RemoveMarker(next + t, marker)
  {
    var rest := s[|marker|..];
    assert marker <= s + t by {
      assert (s + t)[..|marker|] == s[..|marker|];
    }
    assert (s + t)[|marker|..] == rest + t;
    if rest[0] == '\n' {
      next := rest[1..];
      assert (rest + t)[1..] == next + t;
      assert rest[1..] == s[|marker| + 1..];
      NoStraddleSuffix(s, t, marker, |marker| + 1);
    } else {
      next := rest;
      NoStraddleSuffix(s, t, marker, |marker|);
    }
  }

  /** A short run of the marker's character followed by the marker loses the marker only. */
  lemma MarkerJoinsRun(x: string, marker: string)
    requires x != [] && |x| < |marker| && marker <= x + marker && marker[0] != '\n'
    requires forall j | 0 <= j < |marker| :: marker[j] == marker[0]
    ensures RemoveMarker(x + marker, marker) == RemoveMarker(x, marker)
  {
    var s := x + marker;
    assert s[|marker|..] == x by {
      forall j | 0 <= j < |x| ensures s[|marker| + j] == x[j] {
        assert x[j] == s[j] == marker[j] == marker[0];
      }
    }
  }

  /** A "```json" marker cannot run from a text on into a closing fence. */
  lemma JsonFenceNoStraddle(s: string, close: string)
    requires IsClosingFence(close)
    ensures NoStraddle(s, close, JsonFence)
  {
    forall i | 0 <= i < |s| ensures JsonFence <= s[i..] + close ==> JsonFence <= s[i..] {
      var u := s[i..];
      if |u| < |JsonFence| {
        if close == "```" && |u| < 4 {
          assert |u + close| < |JsonFence|;
        } else {
          assert (u + close)[|u|] == close[0] != JsonFence[|u|];
        }
      } else {
        assert (u + close)[..|JsonFence|] == u[..|JsonFence|];
      }
    }
  }

  /** A "```" marker cannot run from a text on into "\n```". */
  lemma FenceNoStraddle(s: string)
    ensures NoStraddle(s, "\n```", Fence)
  {
    forall i | 0 <= i < |s| ensures Fence <= s[i..] + "\n```" ==> Fence <= s[i..] {
      var u := s[i..];
      if |u| < |Fence| {
        assert (u + "\n```")[|u|] == '\n' != Fence[|u|];
      } else {
        assert (u + "\n```")[..|Fence|] == u[..|Fence|];
      }
    }
  }

  /** The "```json" pass over a body and its closing fence: the body's own pass, then a closing fence. */
  lemma JsonPassOfClosing(body: string, close: string) returns (close2: string)
    requires IsClosingFence(close)
    ensures IsClosingFence(close2)
    ensures RemoveMarker(body + close, JsonFence) == RemoveMarker(body, JsonFence) + close2
  {
    JsonFenceNoStraddle(body, close);
    RemoveMarkerAppend(body, close, JsonFence);
    StripClosingFence(close);
    if close == "\n```" && RemoveMarker(body + close, JsonFence) != RemoveMarker(body, JsonFence) + close {
      assert close[1..] == "```";
      StripClosingFence("```");
      close2 := "```";
    } else {
      close2 := close;
    }
  }

  /** After both passes and `trim`, a closing fence leaves no trace. */
  lemma FencePassOfClosing(x: string, close: string)
    requires IsClosingFence(close)
    ensures Trim(RemoveMarker(x + close, Fence)) == Trim(RemoveMarker(x, Fence))
  {
    if close == "```" {
      RemoveTrailingMarker(x, Fence);
    } else {
      FenceNoStraddle(x);
      RemoveMarkerAppend(x, close, Fence);
      StripClosingFence(close);
      assert close[1..] == "```";
      StripClosingFence("```");
      var tail := if RemoveMarker(x + close, Fence) == RemoveMarker(x, Fence) + RemoveMarker(close, Fence)
                  then RemoveMarker(close, Fence) else RemoveMarker("```", Fence);
      assert RemoveMarker(x + close, Fence) == RemoveMarker(x, Fence) + tail;
      TrimIgnoresTrailingSpace(RemoveMarker(x, Fence), tail);
    }
  }

  /** The "```json" pass removes an opening "```json\n" fence and keeps an opening "```\n" one. */
  lemma JsonPassOfOpening(open: string, y: string)
    requires IsOpeningFence(open)
    ensures RemoveMarker(open + y, JsonFence) == (if open == "```\n" then open else "") + RemoveMarker(y, JsonFence)
  {
    if open == "```json\n" {
      assert open + y == JsonFence + "\n" + y;
      RemoveMarkerAtHead(JsonFence, y);
    } else {
      PlainOpeningFenceSurvivesJsonPass(y);
    }
  }

  /**
   * A reply body wrapped in a code fence ("```json" or "```" with a newline
   * before the body, "```" after it) is handed to the parser exactly as the
   * bare body is, whatever the body holds.
   */
  lemma FencesAreTransparent(open: string, body: string, close: string)
    ensures IsOpeningFence(open) && IsClosingFence(close) ==> StripFences(open + body + close) == StripFences(body)
  {
    if IsOpeningFence(open) && IsClosingFence(close) {
      var close2 := JsonPassOfClosing(body, close);
      BothPassesOfOpening(open, body, close, close2);
      FencePassOfClosing(RemoveMarker(body, JsonFence), close2);
    }
  }

  /** Both passes take the opening fence away, leaving the body's "```json" pass and a closing fence. */
  lemma BothPassesOfOpening(open: string, body: string, close: string, close2: string)
    requires IsOpeningFence(open)
    requires RemoveMarker(body + close, JsonFence) == RemoveMarker(body, JsonFence) + close2
    ensures RemoveMarker(RemoveMarker(open + body + close, JsonFence), Fence)
            == RemoveMarker(RemoveMarker(body, JsonFence) + close2, Fence)
  {
    var y := RemoveMarker(body, JsonFence) + close2;
    assert RemoveMarker(open + body + close, JsonFence) == (if open == "```\n" then open else "") + y by {
      assert open + body + close == open + (body + close);
      JsonPassOfOpening(open, body + close);
    }
    if open == "```\n" {
      assert open + y == Fence + "\n" + y;
      RemoveMarkerAtHead(Fence, y);
    } else {
      assert "" + y == y;
    }
  }

  /** A fenced reply whose body has no backtick reaches the parser as the trimmed body. */
  lemma FencedPlainBody(open: string, body: string, close: string)
    requires IsOpeningFence(open) && IsClosingFence(close) && '`' !in body
    ensures StripFences(open + body + close) == Trim(body)
  {
    FencesAreTransparent(open, body, close);
    StripFencesOfPlainText(body);
  }

  /** A marker without whitespace cannot run from a text on into trailing whitespace. */
  lemma SpaceNoStraddle(s: string, ws: string, marker: string)
    requires NoSpace(marker) && AllSpace(ws)
    ensures NoStraddle(s, ws, marker)
  {
    forall i | 0 <= i < |s| ensures marker <= s[i..] + ws ==> marker <= s[i..] {
      var u := s[i..];
      if |u| >= |marker| {
        assert (u + ws)[..|marker|] == u[..|marker|];
      } else if |u + ws| >= |marker| {
        assert (u + ws)[|u|] == ws[0];
        assert IsSpace(ws[0]) && !IsSpace(marker[|u|]);
      }
    }
  }

  /** One marker pass keeps trailing whitespace, perhaps less its first newline. */
  lemma PassKeepsTrailingSpace(x: string, ws: string, marker: string) returns (w: string)
    requires marker != [] && marker[0] == '`' && NoSpace(marker) && AllSpace(ws)
    ensures AllSpace(w) && RemoveMarker(x + ws, marker) == RemoveMarker(x, marker) + w
  {
    SpaceNoStraddle(x, ws, marker);
    RemoveMarkerAppend(x, ws, marker);
    w := if RemoveMarker(x + ws, marker) == RemoveMarker(x, marker) + RemoveMarker(ws, marker) then ws else ws[1..];
    assert '`' !in w by {
      assert forall j | 0 <= j < |w| :: IsSpace(w[j]);
    }
    RemoveMarkerKeepsPlainText(w, [], marker);
    assert w + [] == w;
  }

  /** Whitespace after the reply, such as a newline after the closing fence, does not reach the parser. */
  lemma StripFencesIgnoresTrailingSpace(x: string, ws: string)
    requires AllSpace(ws)
    ensures StripFences(x + ws) == StripFences(x)
  {
    assert NoSpace(JsonFence) && NoSpace(Fence);
    var w1 := PassKeepsTrailingSpace(x, ws, JsonFence);
    var w2 := PassKeepsTrailingSpace(RemoveMarker(x, JsonFence), w1, Fence);
    TrimIgnoresTrailingSpace(RemoveMarker(RemoveMarker(x, JsonFence), Fence), w2);
  }

  /** A fenced reply followed by whitespace, such as "```" and a final newline, still reads as the bare body. */
  lemma FencesWithTrailingSpace(open: string, body: string, close: string, ws: string)
    requires IsOpeningFence(open) && IsClosingFence(close) && AllSpace(ws)
    ensures StripFences(open + body + close + ws) == StripFences(body)
  {
    StripFencesIgnoresTrailingSpace(open + body + close, ws);
    FencesAreTransparent(open, body, close);
  }

  /** One proposed phrase edit from the critique reply. */
  datatype Edit = Edit(original: string, issue: string, replacement: string, priority: string)

  /** An entry of the suggestion list: a phrase edit, or the fully rewritten pitch. */
  datatype Suggestion = Fix(edit: Edit) | Rewrite(improvedVersion: string)

  /**
   * The fields of a parsed critique reply that the page reads. An absent
   * `suggestions` array reads as empty, and an absent `improvedVersion` as "".
   */
  datatype Parsed = Parsed(suggestions: seq<Edit>, improvedVersion: string)

  /** The single entry shown when the critique cannot be read. */
  const ErrorEdit: Edit := Edit("Error", "Could not analyze pitch. Please try again.", "", "high")

  /**
   * The parsed edits as suggestion entries: one phrase edit per parsed edit,
   * so the page lists exactly the parsed edits and none is taken for the rewrite.
   */
  function Fixes(edits: seq<Edit>): (r: seq<Suggestion>)
    ensures |r| == |edits|
    ensures EditsShown(r) == edits
    ensures forall k | 0 <= k < |r| :: r[k].Fix?
  {
    if edits == [] then []
    else
      var r := [Fix(edits[0])] + Fixes(edits[1..]);
      assert r[1..] == Fixes(edits[1..]);
      r
  }

  /**
   * The suggestion list built from the parse result: the error entry when
   * parsing failed, otherwise the reply's edits followed by the rewrite
   * (when there is a non-empty one).
   */
  function Assemble(parsed: Option<Parsed>): (r: seq<Suggestion>)
    ensures parsed.None? ==> |r| == 1
    ensures r == [] <==> parsed.Some? && parsed.value.suggestions == [] && parsed.value.improvedVersion == ""
  {
    match parsed
    case None => [Fix(ErrorEdit)]
    case Some(p) => Fixes(p.suggestions) + (if p.improvedVersion != "" then [Rewrite(p.improvedVersion)] else [])
  }

  /** The critique path: strip the fences, parse (the parser is a parameter), assemble. */
  function Interpret(reply: string, parse: string -> Option<Parsed>): (r: seq<Suggestion>)
    ensures parse(StripFences(reply)).None? ==> EditsShown(r) == [ErrorEdit] && RewriteShown(r) == None
    ensures parse(StripFences(reply)).Some? ==>
              EditsShown(r) == parse(StripFences(reply)).value.suggestions
  {
    var parsed := parse(StripFences(reply));
    if parsed.Some? then AssembleShowsReply(parsed.value); Assemble(parsed) else Assemble(parsed)
  }

  /** `suggestions.filter(s => !s.type)`: the entries the page lists as phrase edits. */
  function EditsShown(suggestions: seq<Suggestion>): (r: seq<Edit>)
    ensures |r| <= |suggestions|
    ensures forall e | e in r :: Fix(e) in suggestions
    ensures forall k | 0 <= k < |suggestions| && suggestions[k].Fix? :: suggestions[k].edit in r
  {
    if suggestions == [] then []
    else (match suggestions[0] case Fix(e) => [e] case Rewrite(_) => []) + EditsShown(suggestions[1..])
  }

  /** `suggestions.find(s => s.type === 'rewrite')`: the rewrite the page offers, if any. */
  function RewriteShown(suggestions: seq<Suggestion>): (r: Option<string>)
    ensures r.Some? ==> Rewrite(r.value) in suggestions
    ensures r.None? <==> forall k | 0 <= k < |suggestions| :: suggestions[k].Fix?
  {
    if suggestions == [] then None
    else match suggestions[0]
      case Rewrite(v) => Some(v)
      case Fix(_) => RewriteShown(suggestions[1..])
  }

  lemma {:induction false} EditsShownConcat(a: seq<Suggestion>, b: seq<Suggestion>)
    ensures EditsShown(a + b) == EditsShown(a) + EditsShown(b)
  {
    if a == [] {
      assert a + b == b;
    } else {
      var head := match a[0] case Fix(e) => [e] case Rewrite(_) => [];
      assert EditsShown(a + b) == head + EditsShown(a[1..] + b) by {
        assert (a + b)[0] == a[0] && (a + b)[1..] == a[1..] + b;
      }
      assert EditsShown(a[1..] + b) == EditsShown(a[1..]) + EditsShown(b) by {
        EditsShownConcat(a[1..], b);
      }
      assert EditsShown(a) == head + EditsShown(a[1..]);
    }
  }

  /** The rewrite lookup passes over phrase edits. */
  lemma {:induction false} RewriteShownSkipsFixes(a: seq<Suggestion>, tail: seq<Suggestion>)
    requires forall k | 0 <= k < |a| :: a[k].Fix?
    ensures RewriteShown(a + tail) == RewriteShown(tail)
  {
    if a == [] {
      assert a + tail == tail;
    } else {
      var s := a + tail;
      assert s[0] == a[0] && s[1..] == a[1..] + tail;
      assert RewriteShown(s) == RewriteShown(s[1..]);
      RewriteShownSkipsFixes(a[1..], tail);
    }
  }

  lemma RewriteShownAfterFixes(edits: seq<Edit>, tail: seq<Suggestion>)
    ensures RewriteShown(Fixes(edits) + tail) == RewriteShown(tail)
  {
    RewriteShownSkipsFixes(Fixes(edits), tail);
  }

  /**
   * A parsed reply shows its edits, all of them and in their order, and
   * offers its rewrite exactly when it has a non-empty one.
   */
  lemma AssembleShowsReply(p: Parsed)
    ensures EditsShown(Assemble(Some(p))) == p.suggestions
    ensures RewriteShown(Assemble(Some(p))) == if p.improvedVersion != "" then Some(p.improvedVersion) else None
  {
    var tail := if p.improvedVersion != "" then [Rewrite(p.improvedVersion)] else [];
    EditsShownConcat(Fixes(p.suggestions), tail);
    RewriteShownAfterFixes(p.suggestions, tail);
  }

  /** A reply that cannot be parsed yields exactly one suggestion, of priority "high", and no rewrite. */
  lemma ParseFailureYieldsOneError()
    ensures |Assemble(None)| == 1
    ensures EditsShown(Assemble(None)) == [ErrorEdit] && ErrorEdit.priority == "high"
    ensures RewriteShown(Assemble(None)) == None
  {
  }

  /** Whatever the parser, a fenced reply yields the same suggestions as the bare one. */
  lemma FencedReplyReadsAlike(parse: string -> Option<Parsed>, open: string, body: string, close: string)
    requires IsOpeningFence(open) && IsClosingFence(close)
    ensures Interpret(open + body + close, parse) == Interpret(body, parse)
  {
    FencesAreTransparent(open, body, close);
  }

  /**
   * GetSubstitution for a string pattern: in the replacement text `$$`
   * stands for `$`, `$&` for the matched text, `` $` `` for the text before
   * the match and `$'` for the text after it; any other `$` is literal.
   */
  function Expand(t: string, matched: string, before: string, after: string): (r: string)
    ensures '$' !in t ==> r == t
  {
    if t == [] then []
    else if |t| >= 2 && t[0] == '$' && t[1] in "$&`'" then
      (match t[1]
       case '$' => "$"
       case '&' => matched
       case '`' => before
       case _ => after) + Expand(t[2..], matched, before, after)
    else [t[0]] + Expand(t[1..], matched, before, after)
  }

  /** `pitch.replace(original, replacement)`: only the first occurrence is replaced. */
  function ReplaceFirst(pitch: string, original: string, replacement: string): (r: string)
    ensures !Contains(pitch, original) ==> r == pitch
    ensures Contains(pitch, original) && '$' !in replacement ==> |r| == |pitch| - |original| + |replacement|
  {
    match IndexOfFrom(pitch, original, 0)
    case None => pitch
    case Some(i) =>
      assert OccursAt(pitch, original, i);
      var after := pitch[i + |original|..];
      pitch[..i] + Expand(replacement, original, pitch[..i], after) + after
  }

  /**
   * Applying a suggestion replaces the first occurrence of its phrase, and
   * only that one, by its replacement (one without `$` patterns).
   */
  lemma ApplyReplacesFirst(pitch: string, e: Edit, i: nat)
    requires OccursAt(pitch, e.original, i) && forall j | 0 <= j < i :: !OccursAt(pitch, e.original, j)
    requires '$' !in e.replacement
    ensures ReplaceFirst(pitch, e.original, e.replacement)
            == pitch[..i] + e.replacement + pitch[i + |e.original|..]
  {
  }

  /** `$$` and `$&` at the head of a replacement. */
  lemma ExpandHead(rest: string, matched: string, before: string, after: string)
    ensures Expand("$$" + rest, matched, before, after) == "$" + Expand(rest, matched, before, after)
    ensures Expand("$&" + rest, matched, before, after) == matched + Expand(rest, matched, before, after)
  {
    assert ("$$" + rest)[2..] == rest;
    assert ("$&" + rest)[2..] == rest;
  }

  /** `$` patterns are live in the replacement: "$$" yields one dollar sign. */
  lemma ApplyExpandsDollarDollar(price: string)
    requires '$' !in price
    ensures ReplaceFirst("X", "X", "$$" + price) == "$" + price
  {
    assert IndexOfFrom("X", "X", 0) == Some(0) by {
      assert OccursAt("X", "X", 0);
    }
    assert Expand("$$" + price, "X", "", "") == "$" + price by {
      ExpandHead(price, "X", "", "");
    }
    assert "X"[..0] == "" && "X"[1..] == "";
  }

  /** "$&" in the replacement stands for the phrase that was matched. */
  lemma ApplyExpandsMatch(phrase: string, more: string)
    requires phrase != [] && '$' !in more
    ensures ReplaceFirst(phrase, phrase, "$&" + more) == phrase + more
  {
    assert IndexOfFrom(phrase, phrase, 0) == Some(0) by {
      assert OccursAt(phrase, phrase, 0);
    }
    assert Expand("$&" + more, phrase, "", "") == phrase + more by {
      ExpandHead(more, phrase, "", "");
    }
    assert phrase[..0] == "" && phrase[|phrase|..] == "";
  }
}
