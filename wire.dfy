/** The relay line format shared by the server (which writes it) and the browser client
    (which splits it back into topic, payload and properties). */
module Wire {
  import opened Wrappers
  import opened Strings

  /** What the client's decoder returns: the topic (`null` when the line did not match),
      the payload text to parse, and the properties text (empty when there is none). */
  datatype Decoded = Decoded(topic: Option<string>, jsonString: string, props: string)

  /** Capture groups 1, 2 and 4 of a successful match; group 4 is absent when the optional
      Props group took no part in the match. */
  datatype Captures = Captures(topic: string, message: string, props: Option<string>)

  /** What follows the topic capture: the message capture and the Props capture. */
  datatype Tail = Tail(message: string, props: Option<string>)

  /** The line the server broadcasts for every broker message. It never adds a Props
      segment. */
  function Encode(topic: string, payload: string): string {
    "Topic: " + topic + " | Message: " + payload
  }

  /** `parseTopicAndPayload`: a line that does not match the pattern is passed through
      whole as the payload, with no topic and no properties. */
  function Decode(line: string): (d: Decoded)
    ensures !StartsWith(line, "Topic:") ==> d == Decoded(None, line, "")
    ensures d.topic.None? ==> d.jsonString == line && d.props == ""
    ensures d.topic.Some? ==>
      && StartsWith(line, "Topic:")
      && d.topic.value != []
      && NoLineTerminator(d.topic.value)
      && NoLineTerminator(d.jsonString)
      && NoLineTerminator(d.props)
  {
    match Match(line)
    case Some(c) => Decoded(Some(c.topic), c.message, c.props.GetOr(""))
    case None => Decoded(None, line, "")
  }

  /** The captures are what the decoder may hand on: a non-empty topic, and text without
      line terminators (`.` does not match them). */
  predicate WellFormed(c: Captures) {
    c.topic != [] && NoLineTerminator(c.topic) && NoLineTerminator(c.message)
    && (c.props.Some? ==> NoLineTerminator(c.props.value))
  }

  predicate WellFormedTail(r: Tail) {
    NoLineTerminator(r.message) && (r.props.Some? ==> NoLineTerminator(r.props.value))
  }

  /** Length of the run of whitespace in `s` starting at `i`: how far a greedy `\s+` or
      `\s*` reaches. */
  function SpaceRun(s: string, i: nat): (n: nat)
    requires i <= |s|
    ensures i + n <= |s|
    ensures forall k :: i <= k < i + n ==> IsSpace(s[k])
    ensures i + n == |s| || !IsSpace(s[i + n])
    decreases |s| - i
  {
    if i < |s| && IsSpace(s[i]) then 1 + SpaceRun(s, i + 1) else 0
  }

  /** The regular expression
        ^Topic:\s+(.+?)\s+\|\s+Message:\s+(.*?)(\s+\|\s+Props:\s+(.*))?$
      run as JavaScript's backtracking matcher runs it: greedy quantifiers try their longest
      extent first, lazy ones their shortest, the optional group is tried before it is
      skipped, and the first complete match wins. A greedy `\s+` directly followed by a
      non-space literal (`|`, `Message:`, `Props:`) can only succeed at its longest extent,
      since any shorter extent leaves a space where the literal must start; those runs are
      taken at their longest without the futile retries. */
  function Match(s: string): (r: Option<Captures>)
    ensures r.Some? ==> StartsWith(s, "Topic:") && WellFormed(r.value)
  {
    if !StartsAt(s, 0, "Topic:") then None
    else
      var n := SpaceRun(s, 6);
      if n == 0 then None else LabelSpaces(s, 6 + n)
  }

  /** `\s+` after `Topic:`, currently ending at `e`; on failure it gives back one space. */
  function LabelSpaces(s: string, e: nat): (r: Option<Captures>)
    requires 7 <= e <= |s|
    ensures r.Some? ==> WellFormed(r.value)
    decreases e
  {
    var attempt := if e < |s| && !IsLineTerminator(s[e]) then LazyTopic(s, e, e + 1) else None;
    if attempt.Some? then attempt
    else if e > 7 then LabelSpaces(s, e - 1)
    else None
  }

  /** `(.+?)` spanning `s[start..end]`: try the rest of the pattern, else take one more
      character. */
  function LazyTopic(s: string, start: nat, end: nat): (r: Option<Captures>)
    requires start < end <= |s|
    requires NoLineTerminator(s[start..end])
    ensures r.Some? ==> WellFormed(r.value)
    decreases |s| - end
  {
    match AfterTopic(s, end)
    case Some(rest) => Some(Captures(s[start..end], rest.message, rest.props))
    case None =>
      if end < |s| && !IsLineTerminator(s[end]) then
        assert s[start..end + 1] == s[start..end] + [s[end]];
        LazyTopic(s, start, end + 1)
      else None
  }

  /** `\s+\|\s+Message:\s+` and everything after it, from position `i`. */
  function AfterTopic(s: string, i: nat): (r: Option<Tail>)
    requires i <= |s|
    ensures r.Some? ==> WellFormedTail(r.value)
  {
    var a := SpaceRun(s, i);
    if a == 0 || i + a >= |s| || s[i + a] != '|' then None
    else
      var j := i + a + 1;
      var b := SpaceRun(s, j);
      if b == 0 || !StartsAt(s, j + b, "Message:") then None
      else
        var k := j + b + 8;
        var c := SpaceRun(s, k);
        if c == 0 then None else MessageSpaces(s, k, k + c)
  }

  /** `\s+` after `Message:` (which ends at `lo`), currently ending at `e`. */
  function MessageSpaces(s: string, lo: nat, e: nat): (r: Option<Tail>)
    requires lo < e <= |s|
    ensures r.Some? ==> WellFormedTail(r.value)
    decreases e
  {
    var attempt := LazyMessage(s, e, e);
    if attempt.Some? then attempt
    else if e - 1 > lo then MessageSpaces(s, lo, e - 1)
    else None
  }

  /** `(.*?)` spanning `s[start..end]`, followed by the optional Props group and `$`. */
  function LazyMessage(s: string, start: nat, end: nat): (r: Option<Tail>)
    requires start <= end <= |s|
    requires NoLineTerminator(s[start..end])
    ensures r.Some? ==> WellFormedTail(r.value)
    decreases |s| - end
  {
    match PropsGroup(s, end)
    case Some(p) => Some(Tail(s[start..end], Some(p)))
    case None =>
      if end == |s| then Some(Tail(s[start..end], None))
      else if !IsLineTerminator(s[end]) then
        assert s[start..end + 1] == s[start..end] + [s[end]];
        LazyMessage(s, start, end + 1)
      else None
  }

  /** `(\s+\|\s+Props:\s+(.*))` followed by `$`, from position `i`; yields group 4. */
  function PropsGroup(s: string, i: nat): (r: Option<string>)
    requires i <= |s|
    ensures r.Some? ==> NoLineTerminator(r.value)
  {
    var a := SpaceRun(s, i);
    if a == 0 || i + a >= |s| || s[i + a] != '|' then None
    else
      var j := i + a + 1;
      var b := SpaceRun(s, j);
      if b == 0 || !StartsAt(s, j + b, "Props:") then None
      else
        var k := j + b + 6;
        var c := SpaceRun(s, k);
        if c == 0 then None else PropsSpaces(s, k, k + c)
  }

  /** `\s+` after `Props:` ending at `e`, then the greedy `(.*)` which must reach the end of
      the line: it does exactly when no line terminator follows `e`. */
  function PropsSpaces(s: string, lo: nat, e: nat): (r: Option<string>)
    requires lo < e <= |s|
    ensures r.Some? ==> NoLineTerminator(r.value)
    decreases e
  {
    if NoLineTerminator(s[e..]) then Some(s[e..])
    else if e - 1 > lo then PropsSpaces(s, lo, e - 1)
    else None
  }

  /** No `|` directly preceded by whitespace: such text can never end a `\s+\|` separator. */
  predicate NoSpaceBeforeBar(s: string) {
    forall k, j :: 0 < k < |s| && j == k - 1 ==> !(IsSpace(s[j]) && s[k] == '|')
  }

  /** The topics the lazy topic capture recovers whole: non-empty, not starting or ending
      in whitespace, on one line, with no `|` after whitespace. */
  predicate TransparentTopic(topic: string) {
    && topic != []
    && !IsSpace(topic[0]) && !IsSpace(topic[|topic| - 1])
    && NoLineTerminator(topic) && NoSpaceBeforeBar(topic)
  }

  /** The topics and payloads the line format carries unchanged. */
  predicate Transparent(topic: string, payload: string) {
    && TransparentTopic(topic)
    && (payload == [] || !IsSpace(payload[0]))
    && NoLineTerminator(payload) && NoSpaceBeforeBar(payload)
  }

  /** Where the fixed text of an encoded line sits. */
  lemma FrameLayout(t: string, m: string)
    ensures var s := Encode(t, m);
      && |s| == 19 + |t| + |m|
      && StartsAt(s, 0, "Topic:") && s[6] == ' '
      && s[8 + |t|] == '|' && StartsAt(s, 10 + |t|, "Message:")
  {
    var s := Encode(t, m);
    assert s == "Topic: " + t + " | Message: " + m;
    assert s[..6] == "Topic:";
    assert s[10 + |t|..18 + |t|] == "Message:";
  }

  /** The single characters around `|` and `Message:`. */
  lemma SeparatorChars(t: string, m: string)
    ensures var s := Encode(t, m);
      && |s| == 19 + |t| + |m|
      && s[7 + |t|] == ' ' && s[8 + |t|] == '|' && s[9 + |t|] == ' ' && s[10 + |t|] == 'M'
      && s[18 + |t|] == ' '
  {
    var s := Encode(t, m);
    assert s == "Topic: " + t + " | Message: " + m;
  }

  /** Where the topic of an encoded line sits. */
  lemma TopicLayout(t: string, m: string)
    ensures var s := Encode(t, m); |s| == 19 + |t| + |m| && s[7..7 + |t|] == t
  {
    var s := Encode(t, m);
    assert s == "Topic: " + t + " | Message: " + m;
    assert s[7..7 + |t|] == t;
  }

  /** Where the payload of an encoded line sits. */
  lemma PayloadLayout(t: string, m: string)
    ensures var s := Encode(t, m); |s| == 19 + |t| + |m| && s[19 + |t|..] == m
  {
    var s := Encode(t, m);
    assert s == "Topic: " + t + " | Message: " + m;
    assert s[19 + |t|..] == m;
  }

  /** Within a stretch of `s` where no `|` follows whitespace, a whitespace run that ends
      inside the stretch is not followed by `|`. */
  lemma NoBarAfterRun(s: string, lo: nat, hi: nat, i: nat)
    requires lo <= i <= hi <= |s|
    requires NoSpaceBeforeBar(s[lo..hi])
    requires i + SpaceRun(s, i) < hi
    ensures SpaceRun(s, i) == 0 || s[i + SpaceRun(s, i)] != '|'
  {
    var a := SpaceRun(s, i);
    if a > 0 {
      var w := s[lo..hi];
      assert w[i + a - lo] == s[i + a];
      assert w[i + a - 1 - lo] == s[i + a - 1];
    }
  }

  /** A whitespace run that starts inside a stretch ending in a non-space stays inside
      it; so when the stretch has no space before a `|`, the run is not followed by `|`. */
  lemma NoBarInside(s: string, lo: nat, hi: nat, i: nat)
    requires lo <= i < hi <= |s|
    requires NoSpaceBeforeBar(s[lo..hi]) && !IsSpace(s[lo..hi][hi - lo - 1])
    ensures AfterTopic(s, i) == None
  {
    assert s[hi - 1] == s[lo..hi][hi - lo - 1];
    NoBarAfterRun(s, lo, hi, i);
  }

  /** Inside a topic that ends in a non-space and has no space before a `|`, no
      `\s+\|` separator can start. */
  lemma NoSeparatorInsideTopic(t: string, m: string, i: nat)
    requires t != [] && !IsSpace(t[|t| - 1]) && NoSpaceBeforeBar(t)
    requires 8 <= i < 7 + |t|
    ensures AfterTopic(Encode(t, m), i) == None
  {
    TopicLayout(t, m);
    NoBarInside(Encode(t, m), 7, 7 + |t|, i);
  }

  /** From a position on, a line whose suffix has no space before a `|` has no Props
      group. */
  lemma NoPropsAfter(s: string, lo: nat, i: nat)
    requires lo <= i <= |s|
    requires NoSpaceBeforeBar(s[lo..])
    ensures PropsGroup(s, i) == None
  {
    if i + SpaceRun(s, i) < |s| {
      assert s[lo..] == s[lo..|s|];
      NoBarAfterRun(s, lo, |s|, i);
    }
  }

  /** The lazy payload capture, started at `lo`, grows until it reaches the end of a line
      whose rest has no line terminator and no space before a `|`. */
  lemma {:induction false} MessageScan(s: string, lo: nat, end: nat)
    requires lo <= end <= |s|
    requires NoSpaceBeforeBar(s[lo..]) && NoLineTerminator(s[lo..])
    requires NoLineTerminator(s[lo..end])
    ensures LazyMessage(s, lo, end) == Some(Tail(s[lo..], None))
    decreases |s| - end
  {
    NoPropsAfter(s, lo, end);
    if end < |s| {
      assert s[end] == s[lo..][end - lo];
      assert s[lo..end + 1] == s[lo..end] + [s[end]];
      MessageScan(s, lo, end + 1);
    } else {
      assert s[lo..end] == s[lo..];
    }
  }

  /** A single space followed by the non-space `c` is a run of one. */
  lemma SpaceBefore(s: string, i: nat, c: char)
    requires i + 1 < |s| && s[i] == ' ' && s[i + 1] == c && !IsSpace(c)
    ensures SpaceRun(s, i) == 1
  {
  }

  /** The whitespace run after the topic is the single space before `|`. */
  lemma RunBeforeBar(t: string, m: string)
    ensures SpaceRun(Encode(t, m), 7 + |t|) == 1
  {
    SeparatorChars(t, m);
    assert !IsSpace('|');
    SpaceBefore(Encode(t, m), 7 + |t|, '|');
  }

  /** The whitespace run after `|` is the single space before `Message:`. */
  lemma RunAfterBar(t: string, m: string)
    ensures SpaceRun(Encode(t, m), 9 + |t|) == 1
  {
    SeparatorChars(t, m);
    assert !IsSpace('M');
    SpaceBefore(Encode(t, m), 9 + |t|, 'M');
  }

  /** The whitespace run after `Message:` is a single space when the payload does not start
      with whitespace. */
  lemma RunAfterLabel(t: string, m: string)
    requires m == [] || !IsSpace(m[0])
    ensures SpaceRun(Encode(t, m), 18 + |t|) == 1
  {
    var s := Encode(t, m);
    SeparatorChars(t, m);
    PayloadLayout(t, m);
    if m != [] {
      assert s[19 + |t|] == s[19 + |t|..][0];
      SpaceBefore(s, 18 + |t|, m[0]);
    }
  }

  /** After the topic come the single-space separator and `Message:` label; what follows is
      the payload capture, which starts right after the label's single space. */
  lemma AfterTopicFrame(t: string, m: string)
    requires m == [] || !IsSpace(m[0])
    ensures var s := Encode(t, m);
      AfterTopic(s, 7 + |t|) == MessageSpaces(s, 18 + |t|, 19 + |t|)
  {
    RunBeforeBar(t, m);
    RunAfterBar(t, m);
    RunAfterLabel(t, m);
    FrameLayout(t, m);
  }

  /** After the topic, the separator is found and the payload runs to the end. */
  lemma AfterTransparentTopic(t: string, m: string)
    requires m == [] || !IsSpace(m[0])
    requires NoSpaceBeforeBar(m) && NoLineTerminator(m)
    ensures AfterTopic(Encode(t, m), 7 + |t|) == Some(Tail(m, None))
  {
    var s := Encode(t, m);
    var T := |t|;
    AfterTopicFrame(t, m);
    PayloadLayout(t, m);
    MessageScan(s, 19 + T, 19 + T);
    assert MessageSpaces(s, 18 + T, 19 + T) == Some(Tail(m, None));
  }

  /** Where no separator follows and the next character is not a line terminator, the lazy
      topic capture takes one more character. */
  lemma LazyTopicGrows(s: string, end: nat)
    requires 7 < end < |s|
    requires NoLineTerminator(s[7..end]) && !IsLineTerminator(s[end])
    requires AfterTopic(s, end) == None
    ensures NoLineTerminator(s[7..end + 1])
    ensures LazyTopic(s, 7, end) == LazyTopic(s, 7, end + 1)
  {
    assert s[7..end + 1] == s[7..end] + [s[end]];
  }

  /** Inside a transparent topic the lazy topic capture finds no separator and takes one
      more character. */
  lemma TopicStep(t: string, m: string, end: nat)
    requires TransparentTopic(t)
    requires 8 <= end < 7 + |t|
    requires NoLineTerminator(Encode(t, m)[7..end])
    ensures NoLineTerminator(Encode(t, m)[7..end + 1])
    ensures LazyTopic(Encode(t, m), 7, end) == LazyTopic(Encode(t, m), 7, end + 1)
  {
    var s := Encode(t, m);
    TopicLayout(t, m);
    NoSeparatorInsideTopic(t, m, end);
    assert s[end] == t[end - 7] by {
      assert s[end] == s[7..7 + |t|][end - 7];
    }
    LazyTopicGrows(s, end);
  }

  /** At the end of the topic the rest of the pattern takes over. */
  lemma TopicEnd(t: string, m: string, r: Tail)
    requires t != []
    requires AfterTopic(Encode(t, m), 7 + |t|) == Some(r)
    requires NoLineTerminator(Encode(t, m)[7..7 + |t|])
    ensures LazyTopic(Encode(t, m), 7, 7 + |t|) == Some(Captures(t, r.message, r.props))
  {
    TopicLayout(t, m);
  }

  /** The lazy topic capture grows until it reaches the real separator, and the match is
      completed by whatever the rest of the pattern makes of the text after the topic. */
  lemma {:induction false} TopicScan(t: string, m: string, end: nat, r: Tail)
    requires TransparentTopic(t)
    requires AfterTopic(Encode(t, m), 7 + |t|) == Some(r)
    requires 8 <= end <= 7 + |t|
    requires NoLineTerminator(Encode(t, m)[7..end])
    ensures LazyTopic(Encode(t, m), 7, end) == Some(Captures(t, r.message, r.props))
    decreases 7 + |t| - end
  {
    if end < 7 + |t| {
      TopicStep(t, m, end);
      TopicScan(t, m, end + 1, r);
    } else {
      TopicEnd(t, m, r);
    }
  }

  /** For a transparent topic, the pattern captures exactly the topic, and the message and
      Props captures the rest of the pattern finds after it. */
  lemma MatchTopic(t: string, m: string, r: Tail)
    requires TransparentTopic(t)
    requires AfterTopic(Encode(t, m), 7 + |t|) == Some(r)
    ensures Match(Encode(t, m)) == Some(Captures(t, r.message, r.props))
  {
    var s := Encode(t, m);
    FrameLayout(t, m);
    TopicLayout(t, m);
    assert s[7] == t[0] by {
      assert s[7] == s[7..7 + |t|][0];
    }
    assert SpaceRun(s, 6) == 1;
    assert s[7..8] == [t[0]];
    TopicScan(t, m, 8, r);
    assert LabelSpaces(s, 7) == Some(Captures(t, r.message, r.props));
  }

  /** Decoding a line the server encoded gives back its topic and payload, with no
      properties, whenever the topic and payload are transparent. */
  lemma DecodeEncode(t: string, m: string)
    requires Transparent(t, m)
    ensures Decode(Encode(t, m)) == Decoded(Some(t), m, "")
  {
    MatchEncode(t, m);
  }

  /** The pattern matches an encoded transparent line with exactly its topic and payload. */
  lemma MatchEncode(t: string, m: string)
    requires Transparent(t, m)
    ensures Match(Encode(t, m)) == Some(Captures(t, m, None))
  {
    AfterTransparentTopic(t, m);
    MatchTopic(t, m, Tail(m, None));
  }

  /** `s` ends, from `h` on, with the text ` | Props: q`, told character by character. */
  predicate PropsText(s: string, h: nat, q: string) {
    && h + 10 + |q| == |s|
    && s[h] == ' ' && s[h + 1] == '|' && s[h + 2] == ' '
    && StartsAt(s, h + 3, "Props:") && s[h + 9] == ' ' && s[h + 10..] == q
  }

  /** Where the fixed text of a ` | Props: q` stretch sits. */
  lemma PropsLayout(s: string, h: nat, q: string)
    requires h <= |s| && s[h..] == " | Props: " + q
    ensures PropsText(s, h, q)
  {
    var w := s[h..];
    assert w[3..9] == "Props:" && w[10..] == q;
    assert s[h + 3..h + 9] == w[3..9];
  }

  /** A stretch of the form ` | Props: q`, with `q` on one line and not starting with
      whitespace, running to the end of the line is a Props group capturing `q`. */
  lemma PropsAt(s: string, h: nat, q: string)
    requires PropsText(s, h, q)
    requires q != [] && !IsSpace(q[0]) && NoLineTerminator(q)
    ensures PropsGroup(s, h) == Some(q)
  {
    assert s[h + 3] == s[h + 3..h + 9][0];
    assert s[h + 10] == q[0];
    SpaceBefore(s, h, '|');
    SpaceBefore(s, h + 2, 'P');
    SpaceBefore(s, h + 9, q[0]);
  }

  /** Inside a stretch ending in a non-space, with no `|` after whitespace, no Props group
      can start. */
  lemma NoPropsInside(s: string, lo: nat, hi: nat, i: nat)
    requires lo <= i < hi <= |s|
    requires NoSpaceBeforeBar(s[lo..hi]) && !IsSpace(s[hi - 1])
    ensures PropsGroup(s, i) == None
  {
    NoBarAfterRun(s, lo, hi, i);
  }

  /** Where no Props group starts and the next character is not a line terminator, the
      lazy payload capture takes one more character. */
  lemma LazyMessageGrows(s: string, lo: nat, end: nat)
    requires lo <= end < |s|
    requires NoLineTerminator(s[lo..end]) && !IsLineTerminator(s[end])
    requires PropsGroup(s, end) == None
    ensures NoLineTerminator(s[lo..end + 1])
    ensures LazyMessage(s, lo, end) == LazyMessage(s, lo, end + 1)
  {
    assert s[lo..end + 1] == s[lo..end] + [s[end]];
  }

  /** The lazy payload capture, started at `lo`, grows through a stretch `s[lo..hi]` with no
      `|` after whitespace and stops where a Props group begins at `hi`. */
  lemma {:induction false} MessageScanTo(s: string, lo: nat, hi: nat, end: nat, q: string)
    requires lo <= end <= hi <= |s|
    requires NoSpaceBeforeBar(s[lo..hi]) && NoLineTerminator(s[lo..hi])
    requires lo < hi ==> !IsSpace(s[hi - 1])
    requires NoLineTerminator(s[lo..end])
    requires PropsGroup(s, hi) == Some(q)
    ensures LazyMessage(s, lo, end) == Some(Tail(s[lo..hi], Some(q)))
    decreases hi - end
  {
    if end < hi {
      NoPropsInside(s, lo, hi, end);
      assert s[end] == s[lo..hi][end - lo];
      LazyMessageGrows(s, lo, end);
      MessageScanTo(s, lo, hi, end + 1, q);
    }
  }

  /** Where the payload text and the ` | Props: ` stretch of such a line sit. */
  lemma PropsPayloadLayout(t: string, p: string, q: string)
    ensures var s := Encode(t, p + " | Props: " + q);
      && 19 + |t| + |p| <= |s|
      && s[19 + |t|..19 + |t| + |p|] == p
      && PropsText(s, 19 + |t| + |p|, q)
  {
    var s := Encode(t, p + " | Props: " + q);
    assert s == ("Topic: " + t + " | Message: " + p) + (" | Props: " + q);
    PropsLayout(s, 19 + |t| + |p|, q);
  }

  /** A payload capture started at `lo`, where `p` is followed by a Props group capturing
      `q`, yields `p` and `q`. */
  lemma PayloadThenProps(s: string, lo: nat, p: string, q: string)
    requires p != [] && !IsSpace(p[|p| - 1])
    requires NoSpaceBeforeBar(p) && NoLineTerminator(p)
    requires lo + |p| <= |s| && s[lo..lo + |p|] == p
    requires PropsGroup(s, lo + |p|) == Some(q)
    ensures LazyMessage(s, lo, lo) == Some(Tail(p, Some(q)))
  {
    assert s[lo + |p| - 1] == p[|p| - 1];
    assert s[lo..lo] == [];
    MessageScanTo(s, lo, lo + |p|, lo, q);
  }

  /** Once the separator and `Message:` label are recognised, a payload
      `p + " | Props: " + q` gives the message capture `p` and the Props capture `q`. */
  lemma PayloadPropsCaptures(s: string, lo: nat, p: string, q: string)
    requires p != [] && !IsSpace(p[|p| - 1])
    requires NoSpaceBeforeBar(p) && NoLineTerminator(p)
    requires q != [] && !IsSpace(q[0]) && NoLineTerminator(q)
    requires 0 < lo && lo + |p| <= |s|
    requires s[lo..lo + |p|] == p && PropsText(s, lo + |p|, q)
    ensures MessageSpaces(s, lo - 1, lo) == Some(Tail(p, Some(q)))
  {
    PropsAt(s, lo + |p|, q);
    PayloadThenProps(s, lo, p, q);
  }

  /** After a topic, a payload `p + " | Props: " + q` gives the message capture `p` and the
      Props capture `q`. */
  lemma AfterTopicProps(t: string, p: string, q: string)
    requires p != [] && !IsSpace(p[0]) && !IsSpace(p[|p| - 1])
    requires NoSpaceBeforeBar(p) && NoLineTerminator(p)
    requires q != [] && !IsSpace(q[0]) && NoLineTerminator(q)
    ensures AfterTopic(Encode(t, p + " | Props: " + q), 7 + |t|) == Some(Tail(p, Some(q)))
  {
    var m := p + " | Props: " + q;
    PropsPayloadLayout(t, p, q);
    PayloadPropsCaptures(Encode(t, m), 19 + |t|, p, q);
    assert m[0] == p[0];
    AfterTopicFrame(t, m);
  }

  /** A payload `p + " | Props: " + q` is split by the page: the payload capture stops at the
      ` | Props: ` the server did not mean as a separator, and `q` becomes the properties text. */
  lemma DecodePropsInPayload(t: string, p: string, q: string)
    requires TransparentTopic(t)
    requires p != [] && !IsSpace(p[0]) && !IsSpace(p[|p| - 1])
    requires NoSpaceBeforeBar(p) && NoLineTerminator(p)
    requires q != [] && !IsSpace(q[0]) && NoLineTerminator(q)
    ensures Decode(Encode(t, p + " | Props: " + q)) == Decoded(Some(t), p, q)
  {
    AfterTopicProps(t, p, q);
    MatchTopic(t, p + " | Props: " + q, Tail(p, Some(q)));
  }

  /** The smallest instance: the payload `a | Props: b` comes back as `a`, with properties
      `b`. */
  lemma PayloadPropsSplit()
    ensures Decode(Encode("t", "a | Props: b")) == Decoded(Some("t"), "a", "b")
  {
    assert "a | Props: b" == "a" + " | Props: " + "b";
    DecodePropsInPayload("t", "a", "b");
  }
}
