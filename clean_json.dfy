/** `clean_json_response` (resumeparser.py): strips a Markdown code fence that
    the backend may wrap around its JSON answer, then surrounding whitespace.
    The two anchored substitutions are modelled with Python's `re` semantics:
    `^` matches only at position 0, `$` at the end or just before one final
    newline, and `\s*` takes the longest whitespace run. */
module CleanJson {
  import opened PyStrings

  const JsonFence: string := "```json"
  const Fence: string := "```"

  /** What the model allows to be cut from the front: whitespace, or the
      lower-case opening fence followed by whitespace. */
  predicate OpeningPart(p: string) {
    AllSpace(p) || (StartsWith(p, JsonFence) && AllSpace(p[|JsonFence|..]))
  }

  /** What the model allows to be cut from the back: whitespace, or whitespace
      followed by the closing fence, optionally followed by one newline. */
  predicate ClosingPart(q: string) {
    || AllSpace(q)
    || (EndsWith(q, Fence) && AllSpace(q[..|q| - |Fence|]))
    || (EndsWith(q, Fence + "\n") && AllSpace(q[..|q| - |Fence| - 1]))
  }

  /** `re.sub(r'^```json\s*', '', s)` */
  function DropOpeningFence(s: string): (r: string)
    ensures |r| <= |s|
    ensures !StartsWith(s, JsonFence) ==> r == s
  {
    if StartsWith(s, JsonFence) then TrimStart(s[|JsonFence|..]) else s
  }

  /** The opening substitution removes an `OpeningPart` and keeps the rest. */
  lemma OpeningCut(s: string) returns (o: nat)
    ensures o <= |s| && DropOpeningFence(s) == s[o..] && OpeningPart(s[..o])
    ensures StartsWith(s, JsonFence) ==> |JsonFence| <= o && AllSpace(s[|JsonFence|..o])
  {
    if StartsWith(s, JsonFence) {
      var t := s[|JsonFence|..];
      var k := TrimStartCut(t);
      o := |JsonFence| + k;
      assert t[k..] == s[o..];
      assert s[..o][..|JsonFence|] == JsonFence;
      assert s[..o][|JsonFence|..] == t[..k];
      assert s[|JsonFence|..o] == t[..k];
    } else {
      o := 0;
      assert AllSpace(s[..0]);
    }
  }

  /** `re.sub(r'\s*```$', '', s)` */
  function DropClosingFence(s: string): (r: string)
    ensures |r| <= |s|
    ensures !EndsWith(s, Fence) && !EndsWith(s, Fence + "\n") ==> r == s
  {
    if EndsWith(s, Fence) then TrimEnd(s[..|s| - |Fence|])
    else if EndsWith(s, Fence + "\n") then TrimEnd(s[..|s| - |Fence| - 1]) + "\n"
    else s
  }

  /** `clean_json_response(text)`: the result never begins or ends with
      whitespace. */
  function CleanJsonResponse(text: string): (r: string)
    ensures IsTrimmed(r)
  {
    Strip(DropClosingFence(DropOpeningFence(text)))
  }

  lemma {:induction false} TrimStartPadded(x: string, w: string)
    requires TrimStart(x) != []
    ensures TrimStart(x + w) == TrimStart(x) + w
    decreases |x|
  {
    assert (x + w)[0] == x[0];
    if IsSpace(x[0]) {
      assert (x + w)[1..] == x[1..] + w;
      TrimStartPadded(x[1..], w);
    }
  }

  /** Trailing whitespace never survives `strip()`. */
  lemma StripPadded(x: string, w: string)
    requires AllSpace(w)
    ensures Strip(x + w) == Strip(x)
  {
    if TrimStart(x) != [] {
      TrimStartPadded(x, w);
      TrimEndSkipsSpace(TrimStart(x), w);
    } else {
      var k := TrimStartCut(x);
      assert x == x[..k];
      TrimStartSkipsSpace(x, w);
      TrimStartSkipsSpace(w, []);
      assert w + [] == w;
    }
  }

  lemma ClosingFenceCutPlain(s: string) returns (c: nat)
    requires EndsWith(s, Fence)
    ensures c <= |s| - |Fence| && ClosingPart(s[c..])
    ensures Strip(DropClosingFence(s)) == Strip(s[..c])
  {
    var p := s[..|s| - |Fence|];
    c := |TrimEnd(p)|;
    assert s[c..] == p[c..] + Fence;
    assert s[c..][..|s[c..]| - |Fence|] == p[c..];
    assert s[..c] == TrimEnd(p);
  }

  lemma ClosingFenceCutNewline(s: string) returns (c: nat)
    requires !EndsWith(s, Fence) && EndsWith(s, Fence + "\n")
    ensures c <= |s| - |Fence| - 1 && ClosingPart(s[c..])
    ensures Strip(DropClosingFence(s)) == Strip(s[..c])
  {
    var p := s[..|s| - |Fence| - 1];
    c := |TrimEnd(p)|;
    assert s[c..] == p[c..] + Fence + "\n";
    assert s[c..][..|s[c..]| - |Fence| - 1] == p[c..];
    assert s[..c] == TrimEnd(p);
    StripPadded(TrimEnd(p), "\n");
  }

  /** The closing substitution cuts a `ClosingPart` off the end, up to
      whitespace that `strip()` removes anyway. */
  lemma ClosingFenceCut(s: string) returns (c: nat)
    ensures c <= |s| && ClosingPart(s[c..])
    ensures EndsWith(s, Fence) ==> c <= |s| - |Fence|
    ensures EndsWith(s, Fence + "\n") ==> c <= |s| - |Fence| - 1
    ensures Strip(DropClosingFence(s)) == Strip(s[..c])
  {
    if EndsWith(s, Fence) {
      assert s[|s| - 1] == s[|s| - |Fence|..][2] == '`';
      c := ClosingFenceCutPlain(s);
    } else if EndsWith(s, Fence + "\n") {
      c := ClosingFenceCutNewline(s);
    } else {
      c := |s|;
      assert s[..c] == s;
      assert AllSpace(s[c..]);
    }
  }

  lemma OpeningPartPadded(pre: string, w: string)
    requires OpeningPart(pre) && AllSpace(w)
    ensures OpeningPart(pre + w)
  {
    if AllSpace(pre) {
      assert AllSpace(pre + w);
    } else {
      assert (pre + w)[..|JsonFence|] == pre[..|JsonFence|];
      assert (pre + w)[|JsonFence|..] == pre[|JsonFence|..] + w;
    }
  }

  lemma ClosingPartPadded(w: string, q: string)
    requires AllSpace(w) && ClosingPart(q)
    ensures ClosingPart(w + q)
  {
    var t := w + q;
    if AllSpace(q) {
      assert AllSpace(t);
    } else if EndsWith(q, Fence) && AllSpace(q[..|q| - |Fence|]) {
      assert t[|t| - |Fence|..] == q[|q| - |Fence|..];
      assert t[..|t| - |Fence|] == w + q[..|q| - |Fence|];
    } else {
      assert t[|t| - |Fence| - 1..] == q[|q| - |Fence| - 1..];
      assert t[..|t| - |Fence| - 1] == w + q[..|q| - |Fence| - 1];
    }
  }

  lemma FrontCut(text: string, o: nat, c: nat, a: nat, i: nat)
    requires o <= |text| && c <= |text| - o && a <= c && i == o + a
    requires OpeningPart(text[..o]) && AllSpace(text[o..][..c][..a])
    ensures OpeningPart(text[..i])
  {
    assert text[..i] == text[..o] + text[o..][..c][..a];
    OpeningPartPadded(text[..o], text[o..][..c][..a]);
  }

  lemma BackCut(text: string, o: nat, c: nat, b: nat, j: nat)
    requires o <= |text| && c <= |text| - o && b <= c && j == o + b
    requires ClosingPart(text[o..][c..]) && AllSpace(text[o..][..c][b..])
    ensures ClosingPart(text[j..])
  {
    assert text[j..] == text[o..][..c][b..] + text[o..][c..];
    ClosingPartPadded(text[o..][..c][b..], text[o..][c..]);
  }

  lemma MiddleCut(text: string, o: nat, c: nat, a: nat, b: nat, i: nat, j: nat)
    requires o <= |text| && c <= |text| - o && a <= b <= c && i == o + a && j == o + b
    ensures text[o..][..c][a..b] == text[i..j]
  {
  }

  /** A backtick past the opening marker lies beyond the whitespace that
      follows the marker. */
  lemma BacktickAfterOpening(text: string, o: nat, q: nat)
    requires |JsonFence| <= o <= |text| && StartsWith(text, JsonFence) && AllSpace(text[|JsonFence|..o])
    requires 3 <= q < |text| && text[q] == '`'
    ensures o <= q
  {
    forall p | 0 <= p < |JsonFence|
      ensures text[p] == JsonFence[p]
    {
      assert text[..|JsonFence|][p] == text[p];
    }
    forall p | |JsonFence| <= p < o
      ensures IsSpace(text[p])
    {
      assert text[|JsonFence|..o][p - |JsonFence|] == text[p];
    }
    assert forall p :: 3 <= p < |JsonFence| ==> JsonFence[p] != '`';
  }

  /** A suffix opening with a backtick lies past the opening marker and the
      whitespace after it. */
  lemma SuffixAfterOpening(text: string, o: nat, suffix: string)
    requires |JsonFence| <= o <= |text| && StartsWith(text, JsonFence) && AllSpace(text[|JsonFence|..o])
    requires EndsWith(text, suffix) && 0 < |suffix| <= 4 && suffix[0] == '`'
    ensures EndsWith(text[o..], suffix)
  {
    var q := |text| - |suffix|;
    assert text[q] == text[q..][0];
    BacktickAfterOpening(text, o, q);
    assert text[o..][|text[o..]| - |suffix|..] == text[q..];
  }

  /** Removing the opening marker and the whitespace after it leaves a
      closing fence at the end in place. */
  lemma ClosingSurvivesOpening(text: string, o: nat)
    requires |JsonFence| <= o <= |text| && StartsWith(text, JsonFence) && AllSpace(text[|JsonFence|..o])
    ensures EndsWith(text, Fence) ==> EndsWith(text[o..], Fence)
    ensures EndsWith(text, Fence + "\n") ==> EndsWith(text[o..], Fence + "\n")
  {
    if EndsWith(text, Fence) {
      SuffixAfterOpening(text, o, Fence);
    }
    if EndsWith(text, Fence + "\n") {
      SuffixAfterOpening(text, o, Fence + "\n");
    }
  }

  /** Once a prefix `text[..o]` is gone, the closing substitution and
      `strip()` keep a contiguous piece of what follows and cut only
      whitespace and the closing fence after it. */
  lemma CutAfterOpening(text: string, o: nat) returns (i: nat, j: nat)
    requires o <= |text| && OpeningPart(text[..o])
    ensures o <= i <= j <= |text| && Strip(DropClosingFence(text[o..])) == text[i..j]
    ensures OpeningPart(text[..i]) && ClosingPart(text[j..])
    ensures EndsWith(text[o..], Fence) ==> j <= |text| - |Fence|
    ensures EndsWith(text[o..], Fence + "\n") ==> j <= |text| - |Fence| - 1
  {
    var s1 := text[o..];
    var c := ClosingFenceCut(s1);
    var a, b := StripIsSlice(s1[..c]);
    i, j := o + a, o + b;
    MiddleCut(text, o, c, a, b, i, j);
    FrontCut(text, o, c, a, i);
    BackCut(text, o, c, b, j);
  }

  /** Only the two ends are touched: the result is a contiguous piece of the
      input, preceded by at most the opening fence and whitespace and followed
      by at most whitespace and the closing fence. A fence anywhere else is
      kept verbatim. */
  lemma CleanOnlyStripsEnds(text: string) returns (i: nat, j: nat)
    ensures i <= j <= |text| && CleanJsonResponse(text) == text[i..j]
    ensures OpeningPart(text[..i]) && ClosingPart(text[j..])
    ensures StartsWith(text, JsonFence) ==> |JsonFence| <= i
    ensures EndsWith(text, Fence) ==> j <= |text| - |Fence|
    ensures EndsWith(text, Fence + "\n") ==> j <= |text| - |Fence| - 1
  {
    if StartsWith(text, JsonFence) {
      var o := OpeningCut(text);
      ClosingSurvivesOpening(text, o);
      i, j := CutAfterOpening(text, o);
    } else {
      assert text[..0] == [] && text[0..] == text;
      i, j := CutAfterOpening(text, 0);
    }
  }

  lemma OpeningOfFenced(w1: string, rest: string)
    requires AllSpace(w1)
    ensures DropOpeningFence(JsonFence + w1 + rest) == TrimStart(rest)
  {
    var s := JsonFence + w1 + rest;
    assert s[..|JsonFence|] == JsonFence;
    assert s[|JsonFence|..] == w1 + rest;
    TrimStartSkipsSpace(w1, rest);
  }

  lemma ClosingOfFencedBody(body: string, w2: string)
    requires IsTrimmed(body) && AllSpace(w2) && body != []
    ensures DropClosingFence(TrimStart(body + w2 + Fence)) == body
  {
    var s1 := body + w2 + Fence;
    assert TrimStart(s1) == s1 by {
      assert s1[0] == body[0];
    }
    assert EndsWith(s1, Fence) by {
      assert s1[|s1| - |Fence|..] == Fence;
    }
    assert s1[..|s1| - |Fence|] == body + w2;
    assert TrimEnd(body + w2) == body by {
      TrimEndSkipsSpace(body, w2);
    }
  }

  lemma ClosingOfFencedEmpty(body: string, w2: string)
    requires body == [] && AllSpace(w2)
    ensures DropClosingFence(TrimStart(body + w2 + Fence)) == body
  {
    assert body + w2 + Fence == w2 + Fence;
    assert TrimStart(w2 + Fence) == TrimStart(Fence) by {
      TrimStartSkipsSpace(w2, Fence);
    }
    assert TrimStart(Fence) == Fence by {
      assert Fence[0] == '`';
    }
    assert EndsWith(Fence, Fence);
    assert Fence[..0] == [];
  }

  lemma ClosingOfFenced(body: string, w2: string)
    requires IsTrimmed(body) && AllSpace(w2)
    ensures DropClosingFence(TrimStart(body + w2 + Fence)) == body
  {
    if body == [] {
      ClosingOfFencedEmpty(body, w2);
    } else {
      ClosingOfFencedBody(body, w2);
    }
  }

  /** Fencing is undone: a body without surrounding whitespace, wrapped as
      "```json", whitespace, body, whitespace, "```", cleans back to the body,
      whatever fences the body itself contains. */
  lemma CleanFenced(body: string, w1: string, w2: string)
    requires IsTrimmed(body) && AllSpace(w1) && AllSpace(w2)
    ensures CleanJsonResponse(JsonFence + w1 + body + w2 + Fence) == body
  {
    var text := JsonFence + w1 + body + w2 + Fence;
    assert text == JsonFence + w1 + (body + w2 + Fence);
    assert DropOpeningFence(text) == TrimStart(body + w2 + Fence) by {
      OpeningOfFenced(w1, body + w2 + Fence);
    }
    assert DropClosingFence(TrimStart(body + w2 + Fence)) == body by {
      ClosingOfFenced(body, w2);
    }
    assert Strip(body) == body by {
      StripOfTrimmed(body);
    }
  }

  /** The example of a fenced reply: "```json\n{"a":1}\n```" cleans to {"a":1}. */
  lemma CleanFencedExample(reply: string)
    requires reply == "```json\n{\"a\":1}\n```"
    ensures CleanJsonResponse(reply) == "{\"a\":1}"
  {
    var body := "{\"a\":1}";
    assert IsTrimmed(body);
    assert reply == JsonFence + "\n" + body + "\n" + Fence;
    CleanFenced(body, "\n", "\n");
  }

  /** Each fence is removed on its own: an opening marker with no closing
      fence is cut, and what follows is stripped. */
  lemma CleanOpeningOnly(text: string, w: string, rest: string)
    requires text == JsonFence + w + rest && AllSpace(w)
    requires !EndsWith(rest, Fence) && !EndsWith(rest, Fence + "\n")
    ensures CleanJsonResponse(text) == Strip(rest)
  {
    OpeningOfFenced(w, rest);
    var k := TrimStartCut(rest);
    var t := rest[k..];
    if |t| >= |Fence| {
      assert t[|t| - |Fence|..] == rest[|rest| - |Fence|..];
    }
    if |t| >= |Fence| + 1 {
      assert t[|t| - |Fence| - 1..] == rest[|rest| - |Fence| - 1..];
    }
    assert DropClosingFence(t) == t;
    assert TrimStart(t) == t;
  }

  /** A closing fence with no opening marker is cut, and what precedes it
      is stripped. */
  lemma CleanClosingOnly(text: string, body: string, w: string)
    requires text == body + w + Fence && AllSpace(w) && !StartsWith(text, JsonFence)
    ensures CleanJsonResponse(text) == Strip(body)
  {
    assert EndsWith(text, Fence) by {
      assert text[|text| - |Fence|..] == Fence;
    }
    assert text[..|text| - |Fence|] == body + w;
    TrimEndSkipsSpace(body, w);
    var t := TrimEnd(body);
    assert body == t + body[|t|..];
    StripPadded(t, body[|t|..]);
  }

  /** "```json{}" cleans to {} although it has no closing fence. */
  lemma CleanOpeningOnlyExample(reply: string)
    requires reply == "```json{}"
    ensures CleanJsonResponse(reply) == "{}"
  {
    assert reply == JsonFence + "" + "{}";
    CleanOpeningOnly(reply, "", "{}");
    StripOfTrimmed("{}");
  }

  /** "{}\n```" cleans to {} although it has no opening marker. */
  lemma CleanClosingOnlyExample(reply: string)
    requires reply == "{}\n```"
    ensures CleanJsonResponse(reply) == "{}"
  {
    assert reply == "{}" + "\n" + Fence;
    CleanClosingOnly(reply, "{}", "\n");
    StripOfTrimmed("{}");
  }

  /** Without an opening fence at position 0 and a closing fence at the end,
      cleaning is just `strip()`. */
  lemma CleanUnfenced(text: string)
    requires !StartsWith(text, JsonFence)
    requires !EndsWith(text, Fence) && !EndsWith(text, Fence + "\n")
    ensures CleanJsonResponse(text) == Strip(text)
  {
  }

  const UpperJsonFence: string := "```JSON"

  /** A closing part holds nothing but whitespace and backticks. */
  lemma ClosingPartChar(q: string, i: nat)
    requires ClosingPart(q) && i < |q|
    ensures IsSpace(q[i]) || q[i] == '`'
  {
    if AllSpace(q) {
    } else if EndsWith(q, Fence) && AllSpace(q[..|q| - |Fence|]) {
      var n := |q| - |Fence|;
      if i < n {
        assert q[..n][i] == q[i];
      } else {
        assert q[n..][i - n] == q[i];
      }
    } else {
      var n := |q| - |Fence| - 1;
      if i < n {
        assert q[..n][i] == q[i];
      } else {
        assert q[n..][i - n] == q[i];
      }
    }
  }

  lemma ClosingPartChars(text: string, c: nat)
    requires c <= |text| && ClosingPart(text[c..])
    ensures forall k :: c <= k < |text| ==> IsSpace(text[k]) || text[k] == '`'
  {
    forall k | c <= k < |text|
      ensures IsSpace(text[k]) || text[k] == '`'
    {
      ClosingPartChar(text[c..], k - c);
      assert text[c..][k - c] == text[k];
    }
  }

  lemma CutAfterUpperFence(text: string, c: nat)
    requires StartsWith(text, UpperJsonFence) && c <= |text| && ClosingPart(text[c..])
    ensures c >= |UpperJsonFence|
  {
    assert text[6] == 'N' by {
      assert text[..7][6] == 'N';
    }
    ClosingPartChars(text, c);
  }

  lemma StripKeepsUpperFence(y: string)
    requires StartsWith(y, UpperJsonFence)
    ensures StartsWith(Strip(y), UpperJsonFence)
  {
    assert y[0] == y[..7][0] == '`';
    assert y[6] == y[..7][6] == 'N';
    assert TrimStart(y) == y;
    TrimEndKeepsNonSpace(y, 6);
    var r := TrimEnd(y);
    assert r[..7] == y[..7];
  }

  /** The opening pattern is case-sensitive: an upper-case "```JSON" marker at
      the start is never removed. */
  lemma UpperIsNotOpening(text: string)
    requires StartsWith(text, UpperJsonFence)
    ensures !StartsWith(text, JsonFence)
  {
    assert text[..7][3] == 'J' != JsonFence[3];
  }

  lemma CleanKeepsUpperCaseFence(text: string)
    requires StartsWith(text, UpperJsonFence)
    ensures StartsWith(CleanJsonResponse(text), UpperJsonFence)
  {
    var c := ClosingFenceCut(text);
    var y := Strip(text[..c]);
    assert CleanJsonResponse(text) == y by {
      UpperIsNotOpening(text);
      assert DropOpeningFence(text) == text;
    }
    assert StartsWith(y, UpperJsonFence) by {
      CutAfterUpperFence(text, c);
      assert text[..c][..7] == text[..7];
      StripKeepsUpperFence(text[..c]);
    }
  }

}
