/**
 * The arithmetic and list selection of the chat pane in
 * nebula-cli/src/app/panes/center.rs: how a message splits into a username
 * and content, how many rows it needs, which of the most recent messages fit
 * the history area, where each is placed, and the width and cursor column of
 * the input box. Drawing itself is reduced to the placements it would draw.
 */
module CenterPane {
  import opened Wrappers
  import opened InputModes

  /** 2^16: one more than the largest `u16`, the type of terminal widths and heights. */
  const U16_LIMIT: nat := 0x1_0000

  /** The username shown for a message without a colon. */
  const DEFAULT_USERNAME: string := "shimori:"

  /** The state the pane is drawn from (`CenterPaneState`); the input widget is reduced to its text. */
  datatype CenterPaneState = CenterPaneState(
    nodeAddress: Option<string>,
    input: string,
    mode: InputMode,
    messages: seq<string>)

  // ---------------------------------------------------------------- trimming

  /** Rust's `char::is_whitespace`: the characters with the Unicode White_Space property. */
  predicate IsWhitespace(c: char): (w: bool)
    ensures w ==> c != ':' && c as int <= 0x3000
  {
    ('\t' <= c <= '\r') || c == ' ' || c == '\U{85}' || c == '\U{A0}' || c == '\U{1680}'
    || ('\U{2000}' <= c <= '\U{200A}') || c == '\U{2028}' || c == '\U{2029}'
    || c == '\U{202F}' || c == '\U{205F}' || c == '\U{3000}'
  }

  /** Every character of `s` from position `lo` up to `hi` is whitespace. */
  predicate WhitespaceBetween(s: string, lo: nat, hi: nat)
    requires lo <= hi <= |s|
  {
    forall i :: lo <= i < hi ==> IsWhitespace(s[i])
  }

  /**
   * `str::trim_start` on the slice `s[lo..hi]`: the position of its first
   * character that is not whitespace, or `hi` when there is none.
   */
  function SkipWhitespace(s: string, lo: nat, hi: nat): (k: nat)
    requires lo <= hi <= |s|
    ensures lo <= k <= hi
    ensures WhitespaceBetween(s, lo, k)
    ensures k < hi ==> !IsWhitespace(s[k])
    decreases hi - lo
  {
    if lo < hi && IsWhitespace(s[lo]) then SkipWhitespace(s, lo + 1, hi) else lo
  }

  /**
   * `str::trim_end` on the slice `s[lo..hi]`: the position just after its
   * last character that is not whitespace, or `lo` when there is none.
   */
  function BackOverWhitespace(s: string, lo: nat, hi: nat): (k: nat)
    requires lo <= hi <= |s|
    ensures lo <= k <= hi
    ensures WhitespaceBetween(s, k, hi)
    ensures k > lo ==> !IsWhitespace(s[k - 1])
    decreases hi - lo
  {
    if lo < hi && IsWhitespace(s[hi - 1]) then BackOverWhitespace(s, lo, hi - 1) else hi
  }

  /** Where `str::trim` cuts the slice `s[lo..hi]`: the trimmed slice is `s[start..end]`. */
  datatype Cut = Cut(start: nat, end: nat)

  function TrimCut(s: string, lo: nat, hi: nat): (c: Cut)
    requires lo <= hi <= |s|
    ensures lo <= c.start <= c.end <= hi
  {
    var start := SkipWhitespace(s, lo, hi);
    Cut(start, BackOverWhitespace(s, start, hi))
  }

  /** `str::trim` removes whitespace at both ends of the slice and nothing else. */
  lemma TrimCutIsPadding(s: string, lo: nat, hi: nat)
    requires lo <= hi <= |s|
    ensures var c := TrimCut(s, lo, hi);
      && WhitespaceBetween(s, lo, c.start)
      && WhitespaceBetween(s, c.end, hi)
      && (c.start < c.end ==> !IsWhitespace(s[c.start]) && !IsWhitespace(s[c.end - 1]))
  {
  }

  /** A slice ending in a character that is not whitespace loses nothing at its end when trimmed. */
  lemma TrimCutKeepsLast(s: string, lo: nat, hi: nat)
    requires lo < hi <= |s| && !IsWhitespace(s[hi - 1])
    ensures TrimCut(s, lo, hi).start < TrimCut(s, lo, hi).end == hi
  {
  }

  // ---------------------------------------------------------------- splitting

  /** `str::find` from position `lo`: the first position at or after `lo` that holds `c`, if any. */
  function FindFrom(s: string, c: char, lo: nat): (r: Option<nat>)
    requires lo <= |s|
    ensures r.None? ==> forall k :: lo <= k < |s| ==> s[k] != c
    ensures r.Some? ==> lo <= r.value < |s| && s[r.value] == c
    ensures r.Some? ==> forall k :: lo <= k < r.value ==> s[k] != c
    decreases |s| - lo
  {
    if lo == |s| then None
    else if s[lo] == c then Some(lo)
    else FindFrom(s, c, lo + 1)
  }

  /**
   * Splits a history line into (username, content): with a colon, the
   * username is the text through the first colon and the content the rest,
   * both trimmed; without one, the default username and the whole, untrimmed
   * message.
   */
  function SplitMessage(message: string): (r: (string, string))
  {
    match FindFrom(message, ':', 0)
    case Some(i) =>
      var user := TrimCut(message, 0, i + 1);
      var content := TrimCut(message, i + 1, |message|);
      (message[user.start..user.end], message[content.start..content.end])
    case None => (DEFAULT_USERNAME, message)
  }

  /** Without a colon, the username is the default one and the content the message as it is. */
  lemma SplitWithoutColon(message: string)
    requires ':' !in message
    ensures SplitMessage(message) == (DEFAULT_USERNAME, message)
  {
  }

  /**
   * With a colon, the username is the text up to and including the first
   * colon with only the whitespace in front of it removed, so it ends in its
   * one and only colon.
   */
  lemma SplitUsername(message: string)
    requires ':' in message
    ensures var i := FindFrom(message, ':', 0).value;
      var start := TrimCut(message, 0, i + 1).start;
      && start <= i
      && SplitMessage(message).0 == message[start..i + 1]
      && WhitespaceBetween(message, 0, start)
      && !IsWhitespace(message[start])
      && forall k :: start <= k < i ==> message[k] != ':'
  {
    var i := FindFrom(message, ':', 0).value;
    TrimCutKeepsLast(message, 0, i + 1);
  }

  /** With a colon, each part is the trimmed slice on its side of the first colon, the colon going with the username. */
  lemma SplitAtColon(message: string, i: nat)
    requires FindFrom(message, ':', 0) == Some(i)
    ensures var user := TrimCut(message, 0, i + 1);
      var content := TrimCut(message, i + 1, |message|);
      SplitMessage(message) == (message[user.start..user.end], message[content.start..content.end])
  {
  }

  /**
   * With a colon, first at position `i`, the content is the text after the
   * colon with only the whitespace at its two ends removed.
   */
  lemma SplitContent(message: string, i: nat)
    requires FindFrom(message, ':', 0) == Some(i)
    ensures var c := TrimCut(message, i + 1, |message|);
      && SplitMessage(message).1 == message[c.start..c.end]
      && WhitespaceBetween(message, i + 1, c.start)
      && WhitespaceBetween(message, c.end, |message|)
      && (c.start < c.end ==> !IsWhitespace(message[c.start]) && !IsWhitespace(message[c.end - 1]))
  {
    var c := TrimCut(message, i + 1, |message|);
    SplitAtColon(message, i);
    assert SplitMessage(message).1 == message[c.start..c.end];
    TrimCutIsPadding(message, i + 1, |message|);
  }

  /**
   * Splitting loses nothing but whitespace: with the first colon at `i`, the
   * message is leading whitespace, the username, the whitespace after the
   * colon, the content and trailing whitespace, in that order.
   */
  lemma SplitLosesOnlyWhitespace(message: string, i: nat)
    requires FindFrom(message, ':', 0) == Some(i)
    ensures var u := TrimCut(message, 0, i + 1);
      var c := TrimCut(message, i + 1, |message|);
      && message == message[..u.start] + SplitMessage(message).0 + message[i + 1..c.start]
                    + SplitMessage(message).1 + message[c.end..]
      && WhitespaceBetween(message, 0, u.start)
      && WhitespaceBetween(message, i + 1, c.start)
      && WhitespaceBetween(message, c.end, |message|)
  {
    var u := TrimCut(message, 0, i + 1);
    var c := TrimCut(message, i + 1, |message|);
    TrimCutKeepsLast(message, 0, i + 1);
    TrimCutIsPadding(message, 0, i + 1);
    SplitContent(message, i);
    assert SplitMessage(message).0 == message[u.start..i + 1];
    FiveSlices(message, u.start, i + 1, c.start, c.end);
  }

  /** A sequence is the concatenation of its slices between four ordered positions. */
  lemma FiveSlices<T>(s: seq<T>, a: nat, b: nat, c: nat, d: nat)
    requires a <= b <= c <= d <= |s|
    ensures s == s[..a] + s[a..b] + s[b..c] + s[c..d] + s[d..]
  {
    assert s[..b] == s[..a] + s[a..b];
    assert s[..c] == s[..b] + s[b..c];
    assert s[..d] == s[..c] + s[c..d];
    assert s == s[..d] + s[d..];
  }

  // ---------------------------------------------------------------- line cost

  /** The number of bytes `c` takes in UTF-8. */
  function Utf8Width(c: char): (n: nat)
    ensures 1 <= n <= 4
  {
    if c as int < 0x80 then 1
    else if c as int < 0x800 then 2
    else if c as int < 0x1_0000 then 3
    else 4
  }

  /** `str::len`: the length of `s` in UTF-8 bytes. */
  function Utf8Len(s: string): (n: nat)
    ensures |s| <= n <= 4 * |s|
  {
    if s == [] then 0 else Utf8Width(s[0]) + Utf8Len(s[1..])
  }

  /**
   * The rows the content of a message takes in a pane `width` columns wide:
   * `(content.len() as u16).saturating_add(width - 1) / width`, and at least one.
   */
  function ContentHeight(content: string, width: nat): (h: nat)
    requires 1 <= width < U16_LIMIT
    ensures 1 <= h < U16_LIMIT
  {
    var length := Utf8Len(content) % U16_LIMIT;                 // `as u16` wraps
    var padded := if length + (width - 1) < U16_LIMIT then length + (width - 1) else U16_LIMIT - 1;
    var rows := padded / width;
    if rows < 1 then 1 else rows
  }

  /**
   * As long as the byte length plus the width still fits a `u16`, the content
   * height is the ceiling of length over width, and one row for empty content:
   * the rows hold all the bytes and one row fewer would not.
   */
  lemma ContentHeightIsCeiling(content: string, width: nat)
    requires 1 <= width < U16_LIMIT
    requires Utf8Len(content) + width <= U16_LIMIT
    ensures var h := ContentHeight(content, width);
      Utf8Len(content) <= h * width && (h == 1 || (h - 1) * width < Utf8Len(content))
  {
    var length := Utf8Len(content);
    assert length % U16_LIMIT == length;
    RoundUpDivision(length, width);
  }

  /** `(n + w - 1) / w` is the least `q` with `n <= q * w`. */
  lemma RoundUpDivision(n: nat, w: nat)
    requires w >= 1
    ensures var q := (n + w - 1) / w; n <= q * w && (q == 0 || (q - 1) * w < n)
    ensures n > 0 ==> (n + w - 1) / w >= 1
  {
    var q, r := (n + w - 1) / w, (n + w - 1) % w;
    assert n + w - 1 == q * w + r && r < w;
    assert (q - 1) * w == q * w - w;
  }

  /** A content of exactly 2^16 bytes wraps to length 0 in the `u16` cast and is given a single row. */
  lemma WrappedLengthGetsOneRow(content: string, width: nat)
    requires 1 <= width < U16_LIMIT
    requires Utf8Len(content) == U16_LIMIT
    ensures ContentHeight(content, width) == 1
  {
    assert (width - 1) / width == 0;
  }

  /**
   * When the byte length fits a `u16` but adding `width - 1` does not, the
   * saturating addition stops at 2^16 - 1: the height is that over the width,
   * which can fall one row short of the content (65535 bytes at width 2 get
   * 32767 rows), never more.
   */
  lemma ContentHeightSaturates(content: string, width: nat)
    requires 1 <= width < U16_LIMIT
    requires Utf8Len(content) < U16_LIMIT <= Utf8Len(content) + width - 1
    ensures var h := ContentHeight(content, width);
      && h == (if (U16_LIMIT - 1) / width < 1 then 1 else (U16_LIMIT - 1) / width)
      && Utf8Len(content) < (h + 1) * width
      && (width == 2 && Utf8Len(content) == U16_LIMIT - 1 ==> h == 32767 && h * width < Utf8Len(content))
  {
    var length := Utf8Len(content);
    assert length % U16_LIMIT == length;
    assert ContentHeight(content, width) == (if (U16_LIMIT - 1) / width < 1 then 1 else (U16_LIMIT - 1) / width);
    QuotientPlusOneExceeds(U16_LIMIT - 1, width);
    if width == 2 {
      assert (U16_LIMIT - 1) / 2 == 32767;
    }
  }

  /** One more than `n / w`, times `w`, exceeds `n`. */
  lemma QuotientPlusOneExceeds(n: nat, w: nat)
    requires w >= 1
    ensures n < (n / w + 1) * w
  {
    var q, r := n / w, n % w;
    assert n == q * w + r && r < w;
    assert (q + 1) * w == q * w + w;
  }

  /** The rows one message takes: its username row, its content and a blank separator row. */
  function LinesNeeded(content: string, width: nat): (n: nat)
    requires 1 <= width < U16_LIMIT
    ensures n == ContentHeight(content, width) + 2 && n >= 3
  {
    1 + ContentHeight(content, width) + 1
  }

  /** The rows taken by split messages stacked one under another. */
  function StackHeight(entries: seq<(string, string)>, width: nat): (h: nat)
    requires entries != [] ==> 1 <= width
    requires width < U16_LIMIT
    ensures h >= 3 * |entries|
  {
    if entries == [] then 0 else LinesNeeded(entries[0].1, width) + StackHeight(entries[1..], width)
  }

  /** Stacking `a` and then `b` takes the rows of both. */
  lemma {:induction false} StackHeightAppend(a: seq<(string, string)>, b: seq<(string, string)>, width: nat)
    requires 1 <= width < U16_LIMIT
    ensures StackHeight(a + b, width) == StackHeight(a, width) + StackHeight(b, width)
  {
    if a != [] {
      assert (a + b)[1..] == a[1..] + b;
      StackHeightAppend(a[1..], b, width);
    } else {
      assert a + b == b;
    }
  }

  /** The rows of the first `j + 1` entries are those of the first `j` plus the next one's, and no more than all of them take. */
  lemma StackHeightPrefix(entries: seq<(string, string)>, j: nat, width: nat)
    requires j < |entries|
    requires 1 <= width < U16_LIMIT
    ensures StackHeight(entries[..j + 1], width) == StackHeight(entries[..j], width) + LinesNeeded(entries[j].1, width)
    ensures StackHeight(entries[..j + 1], width) <= StackHeight(entries, width)
  {
    StackHeightAppend(entries[..j], [entries[j]], width);
    assert entries[..j + 1] == entries[..j] + [entries[j]];
    StackHeightAppend(entries[..j + 1], entries[j + 1..], width);
    assert entries == entries[..j + 1] + entries[j + 1..];
  }

  // ---------------------------------------------------------------- selection

  /** The last `k` messages, split, oldest first. */
  function SplitSuffix(messages: seq<string>, k: nat): (s: seq<(string, string)>)
    requires k <= |messages|
    ensures |s| == k
    ensures forall j :: 0 <= j < k ==> s[j] == SplitMessage(messages[|messages| - k + j])
  {
    seq(k, j requires 0 <= j < k => SplitMessage(messages[|messages| - k + j]))
  }

  /** Taking one message more puts the next older message in front. */
  lemma SplitSuffixGrows(messages: seq<string>, k: nat)
    requires k < |messages|
    ensures SplitSuffix(messages, k + 1) == [SplitMessage(messages[|messages| - k - 1])] + SplitSuffix(messages, k)
  {
  }

  /** Every message more the history takes adds at least three rows. */
  lemma {:induction false} SuffixHeightGrows(messages: seq<string>, k1: nat, k2: nat, width: nat)
    requires k1 <= k2 <= |messages|
    requires 1 <= width < U16_LIMIT
    ensures StackHeight(SplitSuffix(messages, k1), width) + 3 * (k2 - k1) <= StackHeight(SplitSuffix(messages, k2), width)
    decreases k2
  {
    if k1 < k2 {
      SuffixHeightGrows(messages, k1, k2 - 1, width);
      SplitSuffixGrows(messages, k2 - 1);
    }
  }

  /** The messages shown when `k` of the newest fit `height` rows and `k + 1` would not (or there are no more). */
  ghost predicate Fits(messages: seq<string>, k: nat, height: nat, width: nat)
    requires 1 <= width < U16_LIMIT
  {
    && k <= |messages|
    && StackHeight(SplitSuffix(messages, k), width) <= height
    && (k < |messages| ==> StackHeight(SplitSuffix(messages, k + 1), width) > height)
  }

  /** Only one number of newest messages fits in the greedy sense, so the selection below is fully determined. */
  lemma SelectionIsDetermined(messages: seq<string>, k1: nat, k2: nat, height: nat, width: nat)
    requires 1 <= width < U16_LIMIT
    requires Fits(messages, k1, height, width) && Fits(messages, k2, height, width)
    ensures k1 == k2
  {
    if k1 < k2 {
      SuffixHeightGrows(messages, k1 + 1, k2, width);
    } else if k2 < k1 {
      SuffixHeightGrows(messages, k2 + 1, k1, width);
    }
  }

  /**
   * The selection loop of `render_message_history`: walks the messages from
   * the newest, takes each while the rows used so far plus its own still fit
   * `availableHeight`, stops at the first that does not, and returns the
   * taken messages reversed into chronological order.
   */
  method SelectVisible(messages: seq<string>, availableHeight: nat, innerWidth: nat) returns (visible: seq<(string, string)>)
    requires messages != [] ==> 1 <= innerWidth
    requires innerWidth < U16_LIMIT
    ensures |visible| <= |messages|
    ensures visible == SplitSuffix(messages, |visible|)
    ensures StackHeight(visible, innerWidth) <= availableHeight
    ensures |visible| < |messages| ==>
      StackHeight([SplitMessage(messages[|messages| - |visible| - 1])] + visible, innerWidth) > availableHeight
  {
    var newestFirst: seq<(string, string)> := [];
    ghost var oldestFirst: seq<(string, string)> := [];
    var linesUsed := 0;
    var i := |messages|;
    while i > 0
      invariant 0 <= i <= |messages|
      invariant |newestFirst| == |oldestFirst| == |messages| - i
      invariant oldestFirst == SplitSuffix(messages, |messages| - i)
      invariant forall j :: 0 <= j < |newestFirst| ==> newestFirst[j] == oldestFirst[|oldestFirst| - 1 - j]
      invariant linesUsed == StackHeight(oldestFirst, innerWidth) <= availableHeight
    {
      var (username, content) := SplitMessage(messages[i - 1]);
      var linesNeeded := LinesNeeded(content, innerWidth);
      if linesUsed + linesNeeded <= availableHeight {
        SplitSuffixGrows(messages, |messages| - i);
        newestFirst := newestFirst + [(username, content)];
        oldestFirst := [(username, content)] + oldestFirst;
        linesUsed := linesUsed + linesNeeded;
        i := i - 1;
      } else {
        break;
      }
    }
    visible := seq(|newestFirst|, j requires 0 <= j < |newestFirst| => newestFirst[|newestFirst| - 1 - j]);
    assert visible == oldestFirst;
  }

  // ---------------------------------------------------------------- layout

  /** Where a message is drawn: its username row `y`, then `contentHeight` content rows, inside the history area. */
  datatype Placement = Placement(username: string, content: string, y: nat, contentHeight: nat)

  /**
   * The drawing loop of `render_message_history`: places the messages one
   * under another from row 0, each taking its username row, its content rows
   * and a separator row, and stops before a message whose first row would be
   * at or below `innerHeight`. When the messages fit, all of them are placed.
   */
  method LayOutMessages(visible: seq<(string, string)>, innerHeight: nat, innerWidth: nat) returns (placed: seq<Placement>)
    requires innerHeight < U16_LIMIT && innerWidth < U16_LIMIT
    requires visible != [] && innerHeight > 0 ==> 1 <= innerWidth
    ensures |placed| <= |visible|
    ensures forall j :: 0 <= j < |placed| ==>
      && placed[j].y < innerHeight
      && placed[j].username == visible[j].0
      && placed[j].content == visible[j].1
      && placed[j].y == StackHeight(visible[..j], innerWidth)
      && placed[j].contentHeight == ContentHeight(visible[j].1, innerWidth)
    ensures |placed| < |visible| ==>
      innerHeight == 0 || StackHeight(visible[..|placed|], innerWidth) >= innerHeight
    ensures innerHeight > 0 && StackHeight(visible, innerWidth) <= innerHeight ==> |placed| == |visible|
  {
    placed := [];
    var currentY := 0;
    while |placed| < |visible| && currentY < innerHeight
      invariant |placed| <= |visible|
      invariant placed != [] ==> innerHeight > 0 && 1 <= innerWidth
      invariant currentY == StackHeight(visible[..|placed|], innerWidth)
      invariant forall j :: 0 <= j < |placed| ==>
        && placed[j].y < innerHeight
        && placed[j].username == visible[j].0
        && placed[j].content == visible[j].1
        && placed[j].y == StackHeight(visible[..j], innerWidth)
        && placed[j].contentHeight == ContentHeight(visible[j].1, innerWidth)
    {
      var (username, content) := visible[|placed|];
      var contentHeight := ContentHeight(content, innerWidth);
      StackHeightPrefix(visible, |placed|, innerWidth);
      placed := placed + [Placement(username, content, currentY, contentHeight)];
      currentY := currentY + 1;
      currentY := currentY + contentHeight;
      currentY := currentY + 1;
    }
    if innerHeight > 0 && |placed| < |visible| {
      StackHeightPrefix(visible, |placed|, innerWidth);
    }
  }

  /** Placements that carry the messages of a split suffix, in order, carry the split newest messages. */
  lemma PlacedAreSuffix(messages: seq<string>, visible: seq<(string, string)>, placed: seq<Placement>)
    requires |placed| == |visible| <= |messages|
    requires visible == SplitSuffix(messages, |visible|)
    requires forall j :: 0 <= j < |placed| ==> placed[j].username == visible[j].0 && placed[j].content == visible[j].1
    ensures forall j :: 0 <= j < |placed| ==>
      (placed[j].username, placed[j].content) == SplitMessage(messages[|messages| - |placed| + j])
  {
    forall j | 0 <= j < |placed|
      ensures (placed[j].username, placed[j].content) == SplitMessage(messages[|messages| - |placed| + j])
    {
      assert (placed[j].username, placed[j].content) == visible[j];
      assert visible[j] == SplitSuffix(messages, |visible|)[j];
    }
  }

  /** Placements at the running row totals of messages that fit lie one under another from row 0, inside the area. */
  lemma PlacedAreStacked(visible: seq<(string, string)>, placed: seq<Placement>, innerHeight: nat, innerWidth: nat)
    requires 1 <= innerWidth < U16_LIMIT
    requires |placed| == |visible|
    requires StackHeight(visible, innerWidth) <= innerHeight
    requires forall j :: 0 <= j < |placed| ==>
      && placed[j].content == visible[j].1
      && placed[j].y == StackHeight(visible[..j], innerWidth)
      && placed[j].contentHeight == ContentHeight(visible[j].1, innerWidth)
    ensures |placed| > 0 ==> placed[0].y == 0
    ensures forall j :: 0 < j < |placed| ==>
      placed[j].y == placed[j - 1].y + 2 + placed[j - 1].contentHeight
    ensures forall j :: 0 <= j < |placed| ==>
      placed[j].contentHeight == ContentHeight(placed[j].content, innerWidth)
      && placed[j].y + 2 + placed[j].contentHeight <= innerHeight
  {
    if |placed| > 0 {
      assert visible[..0] == [];
    }
    forall j | 0 <= j < |placed|
      ensures placed[j].y + 2 + placed[j].contentHeight <= innerHeight
    {
      StackHeightPrefix(visible, j, innerWidth);
    }
    forall j | 0 < j < |placed|
      ensures placed[j].y == placed[j - 1].y + 2 + placed[j - 1].contentHeight
    {
      StackHeightPrefix(visible, j - 1, innerWidth);
    }
  }

  /**
   * `render_message_history` without the drawing: the newest messages that
   * fit the inner area, split, oldest first, stacked from row 0 without gaps,
   * each lying wholly inside the area; the next older message would not fit.
   */
  method RenderMessageHistory(messages: seq<string>, innerHeight: nat, innerWidth: nat) returns (placed: seq<Placement>)
    requires innerHeight < U16_LIMIT && innerWidth < U16_LIMIT
    requires messages != [] ==> 1 <= innerWidth
    ensures |placed| <= |messages|
    ensures forall j :: 0 <= j < |placed| ==>
      (placed[j].username, placed[j].content) == SplitMessage(messages[|messages| - |placed| + j])
    ensures |placed| > 0 ==> placed[0].y == 0
    ensures forall j :: 0 < j < |placed| ==>
      placed[j].y == placed[j - 1].y + 2 + placed[j - 1].contentHeight
    ensures forall j :: 0 <= j < |placed| ==>
      placed[j].contentHeight == ContentHeight(placed[j].content, innerWidth)
      && placed[j].y + 2 + placed[j].contentHeight <= innerHeight
    ensures |placed| < |messages| ==>
      StackHeight(SplitSuffix(messages, |placed| + 1), innerWidth) > innerHeight
  {
    var visible := SelectVisible(messages, innerHeight, innerWidth);
    placed := LayOutMessages(visible, innerHeight, innerWidth);
    if visible == [] {
      return;
    }
    assert StackHeight(visible, innerWidth) >= 3;
    assert |placed| == |visible|;
    if |visible| < |messages| {
      SplitSuffixGrows(messages, |visible|);
    }
    PlacedAreSuffix(messages, visible, placed);
    PlacedAreStacked(visible, placed, innerHeight, innerWidth);
  }


  // ---------------------------------------------------------------- input box

  /** The text width of the input box: the area width less its two borders and one column, never below zero. */
  function InputWidth(areaWidth: nat): (w: nat)
    requires areaWidth < U16_LIMIT
    ensures w <= areaWidth
    ensures areaWidth >= 3 ==> w + 3 == areaWidth
    ensures areaWidth < 3 ==> w == 0
  {
    (if areaWidth > 3 then areaWidth else 3) - 3
  }

  /**
   * The column of the terminal cursor inside the input box, set only in
   * insert mode: one past the left border plus the cursor's distance from the
   * scroll offset, and the first column when the cursor is scrolled off.
   */
  function CursorColumn(mode: InputMode, visualCursor: nat, scroll: nat): (x: Option<nat>)
    ensures x.Some? <==> mode == Insert
    ensures x.Some? ==> x.value >= 1
    ensures x.Some? && visualCursor >= scroll ==> x.value == visualCursor - scroll + 1
    ensures x.Some? && visualCursor < scroll ==> x.value == 1
  {
    if mode == Insert then Some((if visualCursor > scroll then visualCursor else scroll) - scroll + 1) else None
  }
}
