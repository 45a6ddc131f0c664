/** `llmParseJson` (src/utils.ts): pull the first fenced block out of a model
    reply with `/```(json?\s*)?(.*?)```/s` and hand its text to `jsonrepair`
    and `JSON.parse`. That library is the parameter `repairParse`, which
    yields None where the library throws. */
module Fence {
  import opened Wrappers

  /** A fence, three backticks, starts at offset `i` of `s`. */
  predicate FenceAt(s: string, i: int) {
    0 <= i && i + 3 <= |s| && s[i] == '`' && s[i + 1] == '`' && s[i + 2] == '`'
  }

  /** The first fence that starts at or after `from`. */
  function FindFence(s: string, from: nat): (r: Option<nat>)
    ensures r.Some? ==> from <= r.value && FenceAt(s, r.value)
    ensures r.Some? ==> forall k :: from <= k < r.value ==> !FenceAt(s, k)
    ensures r.None? ==> forall k :: from <= k ==> !FenceAt(s, k)
    decreases |s| - from
  {
    if |s| < from + 3 then None
    else if s[from] == '`' && s[from + 1] == '`' && s[from + 2] == '`' then Some(from)
    else FindFence(s, from + 1)
  }

  /** The characters `\s` matches in a JavaScript regular expression. */
  predicate IsJsSpace(c: char) {
    || c == ' ' || c == '\t' || c == '\n' || c == '\r' || c == '\U{000B}' || c == '\U{000C}'
    || c == '\U{00A0}' || c == '\U{1680}' || ('\U{2000}' <= c <= '\U{200A}')
    || c == '\U{2028}' || c == '\U{2029}' || c == '\U{202F}' || c == '\U{205F}'
    || c == '\U{3000}' || c == '\U{FEFF}'
  }

  /** The end of the run of whitespace that starts at `i` (greedy `\s*`). */
  function SkipSpaces(s: string, i: nat): (r: nat)
    requires i <= |s|
    ensures i <= r <= |s|
    ensures forall k :: i <= k < r ==> IsJsSpace(s[k])
    ensures r < |s| ==> !IsJsSpace(s[r])
    decreases |s| - i
  {
    if i < |s| && IsJsSpace(s[i]) then SkipSpaces(s, i + 1) else i
  }

  /** The end of the optional group `(json?\s*)` tried at `i`: "jso", an
      optional "n", then any whitespace; or nothing when "jso" is not there. */
  function TagEnd(s: string, i: nat): (r: nat)
    requires i <= |s|
    ensures i <= r <= |s|
    ensures forall k :: i <= k < r ==> s[k] != '`'
  {
    if i + 3 <= |s| && s[i..i + 3] == "jso" then
      var j := if i + 3 < |s| && s[i + 3] == 'n' then i + 4 else i + 3;
      assert forall k :: i <= k < j ==> s[k] in "json";
      SkipSpaces(s, j)
    else i
  }

  /** Group 2 of `content.match(/```(json?\s*)?(.*?)```/s)`, or None where the
      match is null. The tag characters are never backticks, so the closing
      fence is the first one after the opening fence, and no other way of
      matching the optional group could change which text is captured. */
  function ExtractFenced(s: string): (r: Option<string>)
    ensures r.None? <==> !exists i, j :: FenceAt(s, i) && FenceAt(s, j) && i + 3 <= j
    ensures r.Some? ==> forall k :: !FenceAt(r.value, k)
  {
    match FindFence(s, 0)
    case None => None
    case Some(open) =>
      var start := TagEnd(s, open + 3);
      NoFenceInTag(s, open + 3);
      match FindFence(s, start)
      case None => None
      case Some(close) =>
        assert FenceAt(s, open) && FenceAt(s, close);
        NoFenceInBlock(s, start, close);
        Some(s[start..close])
  }

  /** No fence starts inside the tag, nor on its last character. */
  lemma NoFenceInTag(s: string, i: nat)
    requires i <= |s|
    ensures forall j :: i <= j < TagEnd(s, i) ==> !FenceAt(s, j)
  {
  }

  /** A slice that ends at the first fence after its start holds no fence. */
  lemma NoFenceInBlock(s: string, start: nat, close: nat)
    requires start <= close <= |s|
    requires forall k :: start <= k < close ==> !FenceAt(s, k)
    ensures forall k :: !FenceAt(s[start..close], k)
  {
    var block := s[start..close];
    forall k ensures !FenceAt(block, k) {
      if 0 <= k && k + 3 <= |block| {
        assert block[k] == s[start + k] && block[k + 1] == s[start + k + 1] && block[k + 2] == s[start + k + 2];
        assert !FenceAt(s, start + k);
      }
    }
  }

  /** Why `llmParseJson` throws: with no fenced block `match` returns null
      and the non-null assertion `matched!` does not stop the access `[2]`. */
  datatype ExtractError = NoFencedBlock

  /** `llmParseJson`: an exception when there is no fenced block; otherwise
      the parsed block, or None (the function's `undefined`) when repairing or
      parsing fails. */
  function LlmParseJson<V>(content: string, repairParse: string -> Option<V>): (r: Result<Option<V>, ExtractError>)
    ensures r.Failure? <==> !exists i, j :: FenceAt(content, i) && FenceAt(content, j) && i + 3 <= j
    ensures r.Success? ==> exists block :: ExtractFenced(content) == Some(block) && r.value == repairParse(block)
  {
    match ExtractFenced(content)
    case None => Failure(NoFencedBlock)
    case Some(block) => Success(repairParse(block))
  }

  /** Text with no backtick in it. */
  predicate NoBackticks(s: string) {
    forall k :: 0 <= k < |s| ==> s[k] != '`'
  }

  /** Offset `i` of `s` holds a backtick, counting every offset past the end
      as one: what `s` looks like when a fence follows it. */
  predicate TickAt(s: string, i: nat) {
    i >= |s| || s[i] == '`'
  }

  /** No fence starts inside `s`, not even one that the fence after it
      completes: `s` may hold backticks (inline code), but no run of them
      reaches three, counting the backticks of the fence that follows. */
  predicate NoFenceBefore(s: string) {
    forall k: nat :: k < |s| ==> !(TickAt(s, k) && TickAt(s, k + 1) && TickAt(s, k + 2))
  }

  /** `NoFenceBefore(s)` says exactly that `s` followed by a fence holds no
      fence starting inside `s`. */
  lemma NoFenceBeforeMeans(s: string)
    ensures NoFenceBefore(s) <==> forall k :: 0 <= k < |s| ==> !FenceAt(s + "```", k)
  {
    var t := s + "```";
    forall k | 0 <= k < |s| ensures FenceAt(t, k) == (TickAt(s, k) && TickAt(s, k + 1) && TickAt(s, k + 2)) {
      forall j | k <= j < k + 3 ensures TickAt(s, j) == (t[j] == '`') {
        if j < |s| {
          assert t[j] == s[j];
        }
      }
    }
    if NoFenceBefore(s) {
      forall k | 0 <= k < |s| ensures !FenceAt(t, k) {
        assert !(TickAt(s, k) && TickAt(s, k + 1) && TickAt(s, k + 2));
      }
    }
    if forall k :: 0 <= k < |s| ==> !FenceAt(t, k) {
      forall k: nat | k < |s| ensures !(TickAt(s, k) && TickAt(s, k + 1) && TickAt(s, k + 2)) {
        assert !FenceAt(t, k);
      }
    }
  }

  /** `FindFence` finds a fence that has no fence before it. */
  lemma FindFenceAt(s: string, from: nat, m: nat)
    requires from <= m && FenceAt(s, m)
    requires forall k :: from <= k < m ==> !FenceAt(s, k)
    ensures FindFence(s, from) == Some(m)
  {
  }

  /** In `prose + fence + tail`, the first fence is the one after the prose. */
  lemma FirstFenceAfterProse(prose: string, tail: string)
    requires NoFenceBefore(prose)
    ensures FindFence(prose + "```" + tail, 0) == Some(|prose|)
  {
    var s := prose + "```" + tail;
    assert FenceAt(s, |prose|);
    forall k | 0 <= k < |prose| ensures !FenceAt(s, k) {
      forall j | k <= j < k + 3 ensures TickAt(prose, j) == (s[j] == '`') {
        if j < |prose| {
          assert prose[j] == s[j];
        }
      }
    }
    FindFenceAt(s, 0, |prose|);
  }

  /** A block followed by a fence: the fence is the first one. */
  lemma FenceAfterBlock(s: string, start: nat, body: string)
    requires NoFenceBefore(body)
    requires start + |body| + 3 <= |s| && s[start..start + |body| + 3] == body + "```"
    ensures FindFence(s, start) == Some(start + |body|)
  {
    var b := |body|;
    var closed := s[start..start + b + 3];
    assert s[start + b] == '`' && s[start + b + 1] == '`' && s[start + b + 2] == '`' by {
      assert closed[b..] == "```";
      assert closed[b] == s[start + b] && closed[b + 1] == s[start + b + 1] && closed[b + 2] == s[start + b + 2];
    }
    forall k | start <= k < start + b ensures !FenceAt(s, k) {
      var i := k - start;
      forall j | i <= j < i + 3 ensures TickAt(body, j) == (s[start + j] == '`') {
        if j < b {
          assert body[j] == closed[j] == s[start + j];
        }
      }
      assert !(TickAt(body, i) && TickAt(body, i + 1) && TickAt(body, i + 2));
    }
    FindFenceAt(s, start, start + b);
  }

  /** Text made of whitespace only. */
  predicate AllJsSpace(ws: string) {
    forall k :: 0 <= k < |ws| ==> IsJsSpace(ws[k])
  }

  /** `\s*` from `j` takes a run of `n` whitespace characters exactly when
      the character after it is not whitespace. */
  lemma {:induction false} SkipRun(s: string, j: nat, n: nat)
    requires j + n <= |s|
    requires forall k :: j <= k < j + n ==> IsJsSpace(s[k])
    requires j + n == |s| || !IsJsSpace(s[j + n])
    ensures SkipSpaces(s, j) == j + n
    decreases n
  {
    if n > 0 {
      SkipRun(s, j + 1, n - 1);
    }
  }

  /** The group `(json?\s*)` takes the tag "jso", an optional "n" and the
      whole run of whitespace after it. The text after the tag starts with no
      whitespace, nor with an "n" that the group would take. */
  lemma TagEndOf(s: string, i: nat, opt: string, ws: string, after: string)
    requires opt == "" || opt == "n"
    requires AllJsSpace(ws)
    requires after == [] || !IsJsSpace(after[0])
    requires opt == "" && ws == [] ==> after == [] || after[0] != 'n'
    requires i <= |s| && s[i..] == "jso" + opt + ws + after
    ensures TagEnd(s, i) == i + 3 + |opt| + |ws|
  {
    var t := s[i..];
    var j := i + 3 + |opt|;
    var n := |ws|;
    assert s[i..i + 3] == t[..3] == "jso";
    if opt == "n" {
      assert s[i + 3] == t[3] == 'n';
    } else if i + 3 < |s| {
      assert s[i + 3] == t[3] == if ws != [] then ws[0] else after[0];
    }
    forall k | j <= k < j + n ensures IsJsSpace(s[k]) {
      assert s[k] == t[k - i] == ws[k - j];
    }
    if j + n < |s| {
      assert s[j + n] == t[j + n - i] == after[0];
    }
    SkipRun(s, j, n);
  }

  /** `ExtractFenced` in terms of the three positions it computes. */
  lemma ExtractFencedAt(s: string, open: nat, start: nat, close: nat, block: string)
    requires FindFence(s, 0) == Some(open)
    requires open + 3 <= |s| && TagEnd(s, open + 3) == start
    requires FindFence(s, start) == Some(close)
    requires start <= close <= |s| && s[start..close] == block
    ensures ExtractFenced(s) == Some(block)
  {
  }

  /** After the opening fence, the tag ends where the block starts. */
  lemma TaggedTagEnd(prose: string, opt: string, ws: string, body: string, rest: string, tail: string, s: string)
    requires opt == "" || opt == "n"
    requires AllJsSpace(ws)
    requires body == [] || !IsJsSpace(body[0])
    requires opt == "" && ws == [] ==> body == [] || body[0] != 'n'
    requires tail == body + "```" + rest
    requires s == prose + "```" + ("jso" + opt + ws + tail)
    ensures TagEnd(s, |prose| + 3) == |prose| + 6 + |opt| + |ws|
  {
    AfterFence(prose, "jso" + opt + ws + tail, s);
    assert tail[0] == if body == [] then '`' else body[0];
    TagEndOf(s, |prose| + 3, opt, ws, tail);
  }

  /** The closing fence is the first one after the tag. */
  lemma CloseAfter(body: string, tail: string, s: string, start: nat)
    requires NoFenceBefore(body)
    requires |body| + 3 <= |tail| && tail[..|body| + 3] == body + "```"
    requires start <= |s| && s[start..] == tail
    ensures FindFence(s, start) == Some(start + |body|)
    ensures s[start..start + |body|] == body
  {
    var b := |body|;
    assert s[start..start + b + 3] == tail[..b + 3];
    FenceAfterBlock(s, start, body);
    assert s[start..start + b] == tail[..b + 3][..b];
  }

  /** What follows a fence: the text after the prose and its fence. */
  lemma AfterFence(prose: string, tail: string, s: string)
    requires s == prose + "```" + tail
    ensures s[|prose| + 3..] == tail
  {
  }

  /** A block followed by a fence starts its tail. */
  lemma BlockStartsTail(body: string, rest: string, tail: string)
    requires tail == body + "```" + rest
    ensures |body| + 3 <= |tail| && tail[..|body| + 3] == body + "```"
  {
  }

  /** After the tag, the closing fence is the first one after the block. */
  lemma TaggedClose(prose: string, tag: string, body: string, tail: string, s: string)
    requires NoFenceBefore(body)
    requires |body| + 3 <= |tail| && tail[..|body| + 3] == body + "```"
    requires s == prose + "```" + (tag + tail)
    ensures FindFence(s, |prose| + 3 + |tag|) == Some(|prose| + 3 + |tag| + |body|)
    ensures s[|prose| + 3 + |tag|..|prose| + 3 + |tag| + |body|] == body
  {
    assert s[|prose| + 3 + |tag|..] == tail;
    CloseAfter(body, tail, s, |prose| + 3 + |tag|);
  }

  /** A block opened with a tag round-trips, whatever text follows it
      (further fenced blocks included), as long as neither the text before it
      nor the block holds a fence (inline code spans are fine). The tag is
      "jso", an optional "n" and any whitespace; the block must not start with
      whitespace, which `\s*` would take as part of the tag, nor, right after
      a bare "jso", with an "n". */
  lemma ExtractTaggedBlock(prose: string, opt: string, ws: string, body: string, rest: string)
    requires NoFenceBefore(prose) && NoFenceBefore(body)
    requires opt == "" || opt == "n"
    requires AllJsSpace(ws)
    requires body == [] || !IsJsSpace(body[0])
    requires opt == "" && ws == [] ==> body == [] || body[0] != 'n'
    ensures ExtractFenced(prose + "```" + "jso" + opt + ws + body + "```" + rest) == Some(body)
  {
    var tag := "jso" + opt + ws;
    TaggedShape(prose, tag, body, rest);
    assert prose + "```" + tag == prose + "```" + "jso" + opt + ws;
    TaggedBlockAt(prose, opt, ws, body, rest);
  }

  /** `ExtractTaggedBlock` on the reply taken apart at the fence and tag. */
  lemma TaggedBlockAt(prose: string, opt: string, ws: string, body: string, rest: string)
    requires NoFenceBefore(prose) && NoFenceBefore(body)
    requires opt == "" || opt == "n"
    requires AllJsSpace(ws)
    requires body == [] || !IsJsSpace(body[0])
    requires opt == "" && ws == [] ==> body == [] || body[0] != 'n'
    ensures ExtractFenced(prose + "```" + ("jso" + opt + ws + (body + "```" + rest))) == Some(body)
  {
    var tag := "jso" + opt + ws;
    var tail := body + "```" + rest;
    var s := prose + "```" + (tag + tail);
    var p, b := |prose|, |body|;
    FirstFenceAfterProse(prose, tag + tail);
    TaggedTagEnd(prose, opt, ws, body, rest, tail, s);
    BlockStartsTail(body, rest, tail);
    TaggedClose(prose, tag, body, tail, s);
    ExtractFencedAt(s, p, p + 3 + |tag|, p + 3 + |tag| + b, body);
  }

  /** The reply regrouped around its fence and tag. */
  lemma TaggedShape(prose: string, tag: string, body: string, rest: string)
    ensures prose + "```" + (tag + (body + "```" + rest)) == prose + "```" + tag + body + "```" + rest
  {
  }

  /** Without "jso" at its start, the block starts right after the fence. */
  lemma BareTagEnd(prose: string, body: string, rest: string, tail: string, s: string)
    requires !("jso" <= body)
    requires tail == body + "```" + rest
    requires s == prose + "```" + tail
    ensures TagEnd(s, |prose| + 3) == |prose| + 3
  {
    var p := |prose|;
    AfterFence(prose, tail, s);
    if p + 6 <= |s| {
      assert s[p + 3..p + 6] == tail[..3];
      if |body| >= 3 {
        assert tail[..3] == body[..3];
      } else {
        assert tail[|body|] == '`';
      }
    }
  }

  /** With no tag, the closing fence is the first one after the block. */
  lemma BareClose(prose: string, body: string, tail: string, s: string)
    requires NoFenceBefore(body)
    requires |body| + 3 <= |tail| && tail[..|body| + 3] == body + "```"
    requires s == prose + "```" + tail
    ensures FindFence(s, |prose| + 3) == Some(|prose| + 3 + |body|)
    ensures s[|prose| + 3..|prose| + 3 + |body|] == body
  {
    AfterFence(prose, tail, s);
    CloseAfter(body, tail, s, |prose| + 3);
  }

  /** A block with no tag round-trips the same way, as long as it does not
      itself start with "jso". */
  lemma ExtractBareBlock(prose: string, body: string, rest: string)
    requires NoFenceBefore(prose) && NoFenceBefore(body)
    requires !("jso" <= body)
    ensures ExtractFenced(prose + "```" + body + "```" + rest) == Some(body)
  {
    assert prose + "```" + (body + "```" + rest) == prose + "```" + body + "```" + rest;
    BareBlockAt(prose, body, rest);
  }

  /** `ExtractBareBlock` on the reply taken apart at the fence. */
  lemma BareBlockAt(prose: string, body: string, rest: string)
    requires NoFenceBefore(prose) && NoFenceBefore(body)
    requires !("jso" <= body)
    ensures ExtractFenced(prose + "```" + (body + "```" + rest)) == Some(body)
  {
    var tail := body + "```" + rest;
    var s := prose + "```" + tail;
    var p, b := |prose|, |body|;
    FirstFenceAfterProse(prose, tail);
    BareTagEnd(prose, body, rest, tail, s);
    BlockStartsTail(body, rest, tail);
    BareClose(prose, body, tail, s);
    ExtractFencedAt(s, p, p + 3, p + 3 + b, body);
  }

  /** `llmParseJson` parses the first tagged block of a reply. */
  lemma LlmParseJsonFirstBlock<V>(prose: string, opt: string, ws: string, body: string, rest: string, repairParse: string -> Option<V>)
    requires NoFenceBefore(prose) && NoFenceBefore(body)
    requires opt == "" || opt == "n"
    requires AllJsSpace(ws)
    requires body == [] || !IsJsSpace(body[0])
    requires opt == "" && ws == [] ==> body == [] || body[0] != 'n'
    ensures LlmParseJson(prose + "```" + "jso" + opt + ws + body + "```" + rest, repairParse) == Success(repairParse(body))
  {
    ExtractTaggedBlock(prose, opt, ws, body, rest);
  }

  /** Prose with an inline code span in it. */
  const InlineCode := "Use `x`:\n"

  /** Inline code in the prose does not disturb the capture: the block after
      "Use `x`:" is still the one captured. */
  lemma InlineCodeExample()
    ensures ExtractFenced(InlineCode + "```" + "jso" + "n" + "\n" + "{}" + "```" + "\n") == Some("{}")
  {
    InlineCodeProse();
    BracesNoFence();
    assert AllJsSpace("\n") by {
      assert "\n"[0] == '\n';
    }
    ExtractTaggedBlock(InlineCode, "n", "\n", "{}", "\n");
  }

  /** The tag may be followed by a run of several whitespace characters:
      all of it belongs to the tag. */
  lemma SpacedTagExample()
    ensures ExtractFenced("" + "```" + "jso" + "n" + " \r\n" + "{}" + "```" + "") == Some("{}")
  {
    BracesNoFence();
    assert AllJsSpace(" \r\n") by {
      assert " \r\n"[0] == ' ' && " \r\n"[1] == '\r' && " \r\n"[2] == '\n';
    }
    ExtractTaggedBlock("", "n", " \r\n", "{}", "");
  }

  lemma InlineCodeProse()
    ensures NoFenceBefore(InlineCode)
  {
    assert InlineCode[5] == 'x' && InlineCode[7] == ':' && InlineCode[8] == '\n';
    assert InlineCode[0] == 'U' && InlineCode[1] == 's' && InlineCode[2] == 'e' && InlineCode[3] == ' ';
  }

  lemma BracesNoFence()
    ensures NoFenceBefore("{}")
  {
    assert "{}"[0] == '{' && "{}"[1] == '}';
  }

  /** A reply with fewer than two fences makes `llmParseJson` throw rather
      than return undefined. */
  lemma LlmParseJsonWithoutFence<V>(content: string, repairParse: string -> Option<V>)
    requires NoBackticks(content)
    ensures LlmParseJson(content, repairParse) == Failure(NoFencedBlock)
  {
    forall i | 0 <= i < |content| ensures !FenceAt(content, i) {
      assert content[i] != '`';
    }
  }
}
