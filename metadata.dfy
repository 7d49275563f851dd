/** Extraction of a task's title, creation date and tags from the text of its
    description.md, as the scan of the task server does it. Each regular
    expression becomes a matcher at one position and a table of what it gives at
    every position; `First` finds the leftmost match in such a table, which is
    what `String.prototype.match` returns for a pattern without the `g` flag. */
module Metadata {
  import opened Wrappers
  import opened Text

  /** Where a match's capture group starts and where the match ends. */
  datatype Span = Span(capStart: nat, end: nat)

  /** A match found by `First`: its start, and its capture group. */
  datatype Match = Match(start: nat, capStart: nat, end: nat)

  /** The first position at or after `p` where the table `m` holds a match. */
  function First(m: seq<Option<Span>>, p: nat): (r: Option<Match>)
    requires p <= |m|
    ensures r.Some? ==> p <= r.value.start < |m| && m[r.value.start] == Some(Span(r.value.capStart, r.value.end))
    decreases |m| - p
  {
    if p == |m| then None
    else match m[p]
      case Some(span) => Some(Match(p, span.capStart, span.end))
      case None => First(m, p + 1)
  }

  /** Nothing matches before the position `First` returns, and when it returns
      nothing, nothing matches at all. */
  lemma {:induction false} FirstLeftmost(m: seq<Option<Span>>, p: nat)
    requires p <= |m|
    ensures First(m, p).Some? ==> forall i :: p <= i < First(m, p).value.start ==> m[i].None?
    ensures First(m, p).None? ==> forall i :: p <= i < |m| ==> m[i].None?
    decreases |m| - p
  {
    if p < |m| && m[p].None? {
      FirstLeftmost(m, p + 1);
    }
  }

  /** Whatever position holds the leftmost match is the one `First` returns. */
  lemma {:induction false} FirstAtLeftmost(m: seq<Option<Span>>)
    ensures forall p :: 0 <= p < |m| && m[p].Some? && (forall i :: 0 <= i < p ==> m[i].None?) ==>
              First(m, 0) == Some(Match(p, m[p].value.capStart, m[p].value.end))
  {
    forall p | 0 <= p < |m| && m[p].Some? && (forall i :: 0 <= i < p ==> m[i].None?)
      ensures First(m, 0) == Some(Match(p, m[p].value.capStart, m[p].value.end))
    {
      FirstFinds(m, 0, p);
    }
  }

  /** `First` returns the first position that holds a match. */
  lemma {:induction false} FirstFinds(m: seq<Option<Span>>, p: nat, q: nat)
    requires p <= q < |m| && m[q].Some?
    requires forall i :: p <= i < q ==> m[i].None?
    ensures First(m, p) == Some(Match(q, m[q].value.capStart, m[q].value.end))
    decreases q - p
  {
    if p < q {
      FirstFinds(m, p + 1, q);
    }
  }

  /** Position `p` starts a line (the `^` of a regular expression with the `m` flag). */
  predicate AtLineStart(s: string, p: nat)
    requires p <= |s|
  {
    p == 0 || IsLineTerminator(s[p - 1])
  }

  /** A line that ends at `p + len` has `len` characters from `p` on. */
  lemma {:induction false} LineRunExact(s: string, p: nat, len: nat)
    requires p + len <= |s|
    requires forall i :: p <= i < p + len ==> !IsLineTerminator(s[i])
    requires p + len == |s| || IsLineTerminator(s[p + len])
    ensures LineRun(s, p) == len
    decreases len
  {
    if len > 0 {
      LineRunExact(s, p + 1, len - 1);
    }
  }

  /** The length of the run of `\s` characters at `p`. */
  function SpaceRun(s: string, p: nat): (n: nat)
    requires p <= |s|
    ensures p + n <= |s|
    ensures forall i :: p <= i < p + n ==> IsSpace(s[i])
    ensures p + n == |s| || !IsSpace(s[p + n])
    decreases |s| - p
  {
    if p < |s| && IsSpace(s[p]) then 1 + SpaceRun(s, p + 1) else 0
  }

  lemma {:induction false} SpaceRunOne(s: string, p: nat)
    requires p + 1 < |s| && IsSpace(s[p]) && !IsSpace(s[p + 1])
    ensures SpaceRun(s, p) == 1
  {
  }

  /** The length of the run of characters other than line terminators at `p`
      (what a greedy `.+` takes). */
  function LineRun(s: string, p: nat): (n: nat)
    requires p <= |s|
    ensures p + n <= |s|
    ensures forall i :: p <= i < p + n ==> !IsLineTerminator(s[i])
    ensures p + n == |s| || IsLineTerminator(s[p + n])
    decreases |s| - p
  {
    if p < |s| && !IsLineTerminator(s[p]) then 1 + LineRun(s, p + 1) else 0
  }

  /** The length of the run of `\w` characters at `p`. */
  function WordRun(s: string, p: nat): (n: nat)
    requires p <= |s|
    ensures p + n <= |s|
    ensures forall i :: p <= i < p + n ==> IsWordChar(s[i])
    ensures p + n == |s| || !IsWordChar(s[p + n])
    decreases |s| - p
  {
    if p < |s| && IsWordChar(s[p]) then 1 + WordRun(s, p + 1) else 0
  }

  /** `\s{min,}(.+)` at `p` once the greedy `\s` part has taken `k` characters:
      it gives characters back until `.+` can start, so the capture starts at the
      largest `p + j`, `min <= j <= k`, that holds a character other than a line
      terminator, and runs to the end of that line. */
  function GreedyRest(s: string, p: nat, k: nat, min: nat): (r: Option<Span>)
    requires p + k <= |s| && min <= k
    ensures r.Some? ==> p + min <= r.value.capStart <= p + k
                        && r.value.capStart < r.value.end <= |s|
                        && r.value.end == r.value.capStart + LineRun(s, r.value.capStart)
    ensures r.Some? ==> forall i :: r.value.capStart < i <= p + k && i < |s| ==> IsLineTerminator(s[i])
    ensures r.None? <==> forall i :: p + min <= i <= p + k && i < |s| ==> IsLineTerminator(s[i])
    decreases k
  {
    if p + k < |s| && !IsLineTerminator(s[p + k]) then Some(Span(p + k, p + k + LineRun(s, p + k)))
    else if k == min then None
    else GreedyRest(s, p, k - 1, min)
  }

  // ---------------------------------------------------------------- title

  /** `/^#\s+(.+)/m` at `p`. */
  function TitleAt(s: string, p: nat): (r: Option<Span>)
    ensures r.Some? ==> p + 2 <= r.value.capStart < r.value.end <= |s|
  {
    if p < |s| && AtLineStart(s, p) && s[p] == '#' && SpaceRun(s, p + 1) >= 1 then
      GreedyRest(s, p + 1, SpaceRun(s, p + 1), 1)
    else None
  }

  /** What the heading pattern gives at every position of `s`, the end of `s` included. */
  function TitleMatches(s: string): (m: seq<Option<Span>>)
    ensures |m| == |s| + 1
    ensures forall i :: 0 <= i <= |s| ==> m[i] == TitleAt(s, i)
  {
    seq(|s| + 1, i requires 0 <= i <= |s| => TitleAt(s, i))
  }

  /** The title a scan reports: the text of the first `# ` heading line, or else
      the task id with every `-` turned into a space. */
  function TitleOf(description: string, id: string): (title: string)
    ensures First(TitleMatches(description), 0).Some? ==>
              title != [] && forall i :: 0 <= i < |title| ==> !IsLineTerminator(title[i])
    ensures First(TitleMatches(description), 0).None? ==> title == ReplaceChar(id, '-', ' ')
    ensures forall p :: 0 <= p <= |description| && TitleAt(description, p).Some? &&
                        (forall i :: 0 <= i < p ==> TitleAt(description, i).None?) ==>
              title == description[TitleAt(description, p).value.capStart..TitleAt(description, p).value.end]
    ensures (forall p :: 0 <= p <= |description| ==> TitleAt(description, p).None?) ==>
              title == ReplaceChar(id, '-', ' ')
  {
    FirstAtLeftmost(TitleMatches(description));
    match First(TitleMatches(description), 0)
    case Some(m) => description[m.capStart..m.end]
    case None => ReplaceChar(id, '-', ' ')
  }

  /** A heading match is a `#` that starts a line, whitespace, and the rest of a
      line. The whitespace takes all it can: it gives back only what it must for
      the capture to start on a character that is not a line terminator, so
      whatever whitespace follows the capture's first character up to the end of
      the run is line terminators. */
  lemma {:induction false} TitleAtShape(s: string, p: nat)
    requires TitleAt(s, p).Some?
    ensures var r := TitleAt(s, p).value;
            var k := SpaceRun(s, p + 1);
            && AtLineStart(s, p) && s[p] == '#'
            && p + 2 <= r.capStart <= p + 1 + k
            && (forall i :: p + 1 <= i < r.capStart ==> IsSpace(s[i]))
            && (forall i :: r.capStart < i < p + 1 + k ==> IsLineTerminator(s[i]))
            && (forall i :: r.capStart <= i < r.end ==> !IsLineTerminator(s[i]))
            && (r.end == |s| || IsLineTerminator(s[r.end]))
  {
  }

  /** A heading `#`, one space and text without line breaks opening the
      description is its title. */
  lemma {:induction false} TitleOfLeadingHeading(description: string, id: string, text: string, rest: string)
    requires text != [] && !IsSpace(text[0])
    requires forall i :: 0 <= i < |text| ==> !IsLineTerminator(text[i])
    requires rest == [] || IsLineTerminator(rest[0])
    requires description == "# " + text + rest
    ensures TitleOf(description, id) == text
  {
    var s := description;
    assert s[0] == '#' && s[1] == ' ' && s[2] == text[0];
    assert SpaceRun(s, 1) == 1;
    forall i | 2 <= i < 2 + |text| ensures !IsLineTerminator(s[i]) {
      assert s[i] == text[i - 2];
    }
    if rest != [] {
      assert s[2 + |text|] == rest[0];
    }
    LineRunExact(s, 2, |text|);
    assert TitleAt(s, 0) == Some(Span(2, 2 + |text|));
    assert s[2..2 + |text|] == text;
  }

  // ---------------------------------------------------------------- created

  predicate IsIsoDate(d: string) {
    && |d| == 10
    && IsDigit(d[0]) && IsDigit(d[1]) && IsDigit(d[2]) && IsDigit(d[3]) && d[4] == '-'
    && IsDigit(d[5]) && IsDigit(d[6]) && d[7] == '-' && IsDigit(d[8]) && IsDigit(d[9])
  }

  /** `Created:` at `p`, its letters in either case. */
  predicate CreatedLabelAt(s: string, p: nat) {
    && p + 8 <= |s|
    && CiEq(s[p], 'c') && CiEq(s[p + 1], 'r') && CiEq(s[p + 2], 'e') && CiEq(s[p + 3], 'a')
    && CiEq(s[p + 4], 't') && CiEq(s[p + 5], 'e') && CiEq(s[p + 6], 'd') && s[p + 7] == ':'
  }

  /** The label test is the case-insensitive prefix test for `created:`. */
  lemma {:induction false} CreatedLabelIsCiPrefix(s: string, p: nat)
    requires p <= |s|
    ensures CreatedLabelAt(s, p) <==> CiPrefix(s[p..], "created:")
  {
    var pat := "created:";
    if p + 8 <= |s| {
      assert forall k :: 0 <= k < 8 ==> s[p..][k] == s[p + k];
      assert pat[0] == 'c' && pat[1] == 'r' && pat[2] == 'e' && pat[3] == 'a';
      assert pat[4] == 't' && pat[5] == 'e' && pat[6] == 'd' && pat[7] == ':';
    }
  }

  /** `/Created:\s*(\d{4}-\d{2}-\d{2})/i` at `p`. Giving back whitespace never
      lets a digit follow, so the greedy `\s*` takes the whole run. */
  function CreatedAt(s: string, p: nat): (r: Option<Span>)
    ensures r.Some? ==> p + 8 <= r.value.capStart && r.value.end == r.value.capStart + 10 <= |s|
                        && IsIsoDate(s[r.value.capStart..r.value.end])
  {
    if CreatedLabelAt(s, p) then
      var q := p + 8 + SpaceRun(s, p + 8);
      if q + 10 <= |s| && IsIsoDate(s[q..q + 10]) then Some(Span(q, q + 10)) else None
    else None
  }

  /** A `Created:` match is the label, the whole run of whitespace after it, and
      a date of ten characters; a label followed by whitespace and such a date
      is a match. */
  lemma {:induction false} CreatedAtShape(s: string, p: nat)
    ensures CreatedAt(s, p).Some? ==>
              var r := CreatedAt(s, p).value;
              && CreatedLabelAt(s, p)
              && r.capStart == p + 8 + SpaceRun(s, p + 8)
              && (forall i :: p + 8 <= i < r.capStart ==> IsSpace(s[i]))
              && r.end == r.capStart + 10
              && IsIsoDate(s[r.capStart..r.end])
    ensures (&& CreatedLabelAt(s, p) && p + 8 + SpaceRun(s, p + 8) + 10 <= |s|
             && IsIsoDate(s[p + 8 + SpaceRun(s, p + 8)..p + 8 + SpaceRun(s, p + 8) + 10]))
            ==> CreatedAt(s, p).Some?
  {
  }

  /** What the `Created:` pattern gives at every position of `s`, the end of `s` included. */
  function CreatedMatches(s: string): (m: seq<Option<Span>>)
    ensures |m| == |s| + 1
    ensures forall i :: 0 <= i <= |s| ==> m[i] == CreatedAt(s, i)
  {
    seq(|s| + 1, i requires 0 <= i <= |s| => CreatedAt(s, i))
  }

  /** The creation date a scan reports: the first `Created: YYYY-MM-DD` in any
      letter case, or else `today`. */
  function CreatedOf(description: string, today: string): (created: string)
    ensures First(CreatedMatches(description), 0).None? ==> created == today
    ensures First(CreatedMatches(description), 0).Some? || IsIsoDate(today) ==> IsIsoDate(created)
    ensures forall p :: 0 <= p <= |description| && CreatedAt(description, p).Some? &&
                        (forall i :: 0 <= i < p ==> CreatedAt(description, i).None?) ==>
              created == description[CreatedAt(description, p).value.capStart..CreatedAt(description, p).value.end]
    ensures (forall p :: 0 <= p <= |description| ==> CreatedAt(description, p).None?) ==> created == today
  {
    FirstAtLeftmost(CreatedMatches(description));
    match First(CreatedMatches(description), 0)
    case Some(m) => description[m.capStart..m.end]
    case None => today
  }

  // ---------------------------------------------------------------- status

  /** `Status:` at `p`, its letters in either case. */
  predicate StatusLabelAt(s: string, p: nat) {
    && p + 7 <= |s|
    && CiEq(s[p], 's') && CiEq(s[p + 1], 't') && CiEq(s[p + 2], 'a') && CiEq(s[p + 3], 't')
    && CiEq(s[p + 4], 'u') && CiEq(s[p + 5], 's') && s[p + 6] == ':'
  }

  /** The label test is the case-insensitive prefix test for `status:`. */
  lemma {:induction false} StatusLabelIsCiPrefix(s: string, p: nat)
    requires p <= |s|
    ensures StatusLabelAt(s, p) <==> CiPrefix(s[p..], "status:")
  {
    var pat := "status:";
    if p + 7 <= |s| {
      assert forall k :: 0 <= k < 7 ==> s[p..][k] == s[p + k];
      assert pat[0] == 's' && pat[1] == 't' && pat[2] == 'a' && pat[3] == 't';
      assert pat[4] == 'u' && pat[5] == 's' && pat[6] == ':';
    }
  }

  /** `/Status:\s*\w+/i` at `p`. The capture marks the status word. Giving back
      whitespace never lets a word character follow, so `\s*` keeps its whole run. */
  function StatusAt(s: string, p: nat): (r: Option<Span>)
    ensures r.Some? ==> p + 7 <= r.value.capStart < r.value.end <= |s|
  {
    if StatusLabelAt(s, p) then
      var q := p + 7 + SpaceRun(s, p + 7);
      var n := WordRun(s, q);
      if n > 0 then Some(Span(q, q + n)) else None
    else None
  }

  /** A `Status:` match is the label, a run of whitespace, and a whole word. */
  lemma {:induction false} StatusAtShape(s: string, p: nat)
    requires StatusAt(s, p).Some?
    ensures var r := StatusAt(s, p).value;
            && StatusLabelAt(s, p)
            && (forall i :: p + 7 <= i < r.capStart ==> IsSpace(s[i]))
            && (forall i :: r.capStart <= i < r.end ==> IsWordChar(s[i]))
            && (r.end == |s| || !IsWordChar(s[r.end]))
  {
  }

  /** What the `Status:` pattern gives at every position of `s`, the end of `s` included. */
  function StatusMatches(s: string): (m: seq<Option<Span>>)
    ensures |m| == |s| + 1
    ensures forall i :: 0 <= i <= |s| ==> m[i] == StatusAt(s, i)
  {
    seq(|s| + 1, i requires 0 <= i <= |s| => StatusAt(s, i))
  }

  // ---------------------------------------------------------------- tags

  /** `Tags:` at `p`, its letters in either case. */
  predicate TagsLabelAt(s: string, p: nat) {
    && p + 5 <= |s|
    && CiEq(s[p], 't') && CiEq(s[p + 1], 'a') && CiEq(s[p + 2], 'g') && CiEq(s[p + 3], 's')
    && s[p + 4] == ':'
  }

  /** `/Tags:\s*(.+)/i` at `p`. */
  function TagsAt(s: string, p: nat): (r: Option<Span>)
    ensures r.Some? ==> p + 5 <= r.value.capStart < r.value.end <= |s|
  {
    if TagsLabelAt(s, p) then
      GreedyRest(s, p + 5, SpaceRun(s, p + 5), 0)
    else None
  }

  /** A `Tags:` match is the label, whitespace, and the rest of a line: the
      whitespace gives back only what the capture needs to start on a character
      that is not a line terminator. */
  lemma {:induction false} TagsAtShape(s: string, p: nat)
    requires TagsAt(s, p).Some?
    ensures var r := TagsAt(s, p).value;
            var k := SpaceRun(s, p + 5);
            && TagsLabelAt(s, p)
            && p + 5 <= r.capStart <= p + 5 + k
            && (forall i :: p + 5 <= i < r.capStart ==> IsSpace(s[i]))
            && (forall i :: r.capStart < i < p + 5 + k ==> IsLineTerminator(s[i]))
            && (forall i :: r.capStart <= i < r.end ==> !IsLineTerminator(s[i]))
            && (r.end == |s| || IsLineTerminator(s[r.end]))
  {
  }

  /** What the `Tags:` pattern gives at every position of `s`, the end of `s` included. */
  function TagsMatches(s: string): (m: seq<Option<Span>>)
    ensures |m| == |s| + 1
    ensures forall i :: 0 <= i <= |s| ==> m[i] == TagsAt(s, i)
  {
    seq(|s| + 1, i requires 0 <= i <= |s| => TagsAt(s, i))
  }

  predicate IsTagSeparator(c: char) {
    IsSpace(c) || c == ','
  }

  /** The length of the run of characters at the start of `s` that are not separators. */
  function PieceRun(s: string): (n: nat)
    ensures n <= |s|
    ensures forall i :: 0 <= i < n ==> !IsTagSeparator(s[i])
    ensures n == |s| || IsTagSeparator(s[n])
  {
    if s != [] && !IsTagSeparator(s[0]) then 1 + PieceRun(s[1..]) else 0
  }

  /** The non-empty pieces of `s.split(/[\s,]+/)`, in order. The empty pieces that
      `split` yields at the ends are the ones the filter afterwards drops. */
  function Pieces(s: string): (r: seq<string>)
    ensures forall i :: 0 <= i < |r| ==> r[i] != []
    ensures forall i, j :: 0 <= i < |r| && 0 <= j < |r[i]| ==> !IsTagSeparator(r[i][j])
  {
    if s == [] then []
    else if IsTagSeparator(s[0]) then Pieces(s[1..])
    else
      var n := PieceRun(s);
      [s[..n]] + Pieces(s[n..])
  }

  /** A piece runs up to the first separator: the run is the same whatever
      follows that separator. */
  lemma {:induction false} PieceRunSplit(a: string, c: char, b: string)
    requires IsTagSeparator(c)
    ensures PieceRun(a + [c] + b) == PieceRun(a)
  {
    if a != [] && !IsTagSeparator(a[0]) {
      assert (a + [c] + b)[1..] == a[1..] + [c] + b;
      PieceRunSplit(a[1..], c, b);
    }
  }

  /** Splitting at a separator: the pieces of a text are the pieces before a
      separator followed by the pieces after it. */
  lemma {:induction false} PiecesSplit(a: string, c: char, b: string)
    requires IsTagSeparator(c)
    ensures Pieces(a + [c] + b) == Pieces(a) + Pieces(b)
    decreases |a|
  {
    var s := a + [c] + b;
    if a == [] {
      assert s[1..] == b;
    } else if IsTagSeparator(a[0]) {
      assert s[1..] == a[1..] + [c] + b;
      PiecesSplit(a[1..], c, b);
    } else {
      PieceRunSplit(a, c, b);
      var m := PieceRun(a);
      assert s[..m] == a[..m];
      if m < |a| {
        assert s[m..] == a[m..] + [c] + b;
        PiecesSplit(a[m..], c, b);
      } else {
        assert s[m..] == [c] + b && s[m..][1..] == b;
        assert a[m..] == [];
      }
    }
  }

  /** A text without separators is one piece, and an empty text none. */
  lemma {:induction false} PiecesWord(t: string)
    requires forall i :: 0 <= i < |t| ==> !IsTagSeparator(t[i])
    ensures Pieces(t) == if t == [] then [] else [t]
  {
    if t != [] {
      assert t[..PieceRun(t)] == t;
      assert t[PieceRun(t)..] == [];
    }
  }

  /** A text of separators only has no pieces. */
  lemma {:induction false} PiecesBlank(t: string)
    requires forall i :: 0 <= i < |t| ==> IsTagSeparator(t[i])
    ensures Pieces(t) == []
  {
    if t != [] {
      PiecesBlank(t[1..]);
    }
  }

  /** `t.replace(/^#/, '')` */
  function StripHash(t: string): (r: string)
    ensures r == if t != [] && t[0] == '#' then t[1..] else t
  {
    if t != [] && t[0] == '#' then t[1..] else t
  }

  /** `pieces.map(t => t.trim().replace(/^#/, '')).filter(t => t)`; the pieces hold
      no whitespace, so `trim` leaves them as they are. */
  function CleanTags(pieces: seq<string>): (r: seq<string>)
    ensures |r| <= |pieces|
    ensures forall i :: 0 <= i < |r| ==> r[i] != []
    ensures (forall i :: 0 <= i < |pieces| ==> StripHash(pieces[i]) != []) ==> r == StripAll(pieces)
    ensures (forall i, j :: 0 <= i < |pieces| && 0 <= j < |pieces[i]| ==> !IsTagSeparator(pieces[i][j]))
            ==> forall i, j :: 0 <= i < |r| && 0 <= j < |r[i]| ==> !IsTagSeparator(r[i][j])
  {
    if pieces == [] then []
    else
      var t := StripHash(pieces[0]);
      (if t == [] then [] else [t]) + CleanTags(pieces[1..])
  }

  /** Cleaning tags piece by piece: the clean tags of two lists are those of
      the first followed by those of the second. */
  lemma {:induction false} CleanTagsAppend(a: seq<string>, b: seq<string>)
    ensures CleanTags(a + b) == CleanTags(a) + CleanTags(b)
  {
    if a != [] {
      var t := StripHash(a[0]);
      var x := if t == [] then [] else [t];
      assert (a + b)[0] == a[0] && (a + b)[1..] == a[1..] + b;
      assert CleanTags(a + b) == x + CleanTags(a[1..] + b);
      assert CleanTags(a) == x + CleanTags(a[1..]);
      CleanTagsAppend(a[1..], b);
      assert x + (CleanTags(a[1..]) + CleanTags(b)) == (x + CleanTags(a[1..])) + CleanTags(b);
    } else {
      assert a + b == b;
    }
  }

  /** A single piece gives its text without a leading `#`, unless that leaves
      nothing (the piece `#`). */
  lemma {:induction false} CleanTagsOne(t: string)
    ensures CleanTags([t]) == if StripHash(t) == [] then [] else [StripHash(t)]
  {
    assert [t][1..] == [];
  }

  /** The matches of `/#\w+/g`, left to right, from position `p` on. */
  function HashMatches(s: string, p: nat): (r: seq<string>)
    requires p <= |s|
    ensures forall i :: 0 <= i < |r| ==> |r[i]| >= 2 && r[i][0] == '#'
    ensures forall i, j :: 0 <= i < |r| && 1 <= j < |r[i]| ==> IsWordChar(r[i][j])
    decreases |s| - p
  {
    if p + 1 >= |s| then []
    else if s[p] == '#' && IsWordChar(s[p + 1]) then
      var n := WordRun(s, p + 1);
      [s[p..p + 1 + n]] + HashMatches(s, p + 1 + n)
    else HashMatches(s, p + 1)
  }

  /** A `#` followed by a word character at `q`: where a `/#\w+/` match starts. */
  predicate HashAt(s: string, q: nat) {
    q + 1 < |s| && s[q] == '#' && IsWordChar(s[q + 1])
  }

  /** The `#\w+` match that starts at `q`: the `#` and the whole word after it. */
  function HashToken(s: string, q: nat): (t: string)
    requires HashAt(s, q)
    ensures |t| >= 2 && t[0] == '#' && t[1..] == s[q + 1..q + 1 + WordRun(s, q + 1)]
  {
    s[q..q + 1 + WordRun(s, q + 1)]
  }

  /** Every position from `p` on where a `#\w+` match starts, in increasing order. */
  function HashStarts(s: string, p: nat): (r: seq<nat>)
    ensures forall k :: 0 <= k < |r| ==> p <= r[k] && HashAt(s, r[k])
    ensures forall k, l :: 0 <= k < l < |r| ==> r[k] < r[l]
    ensures forall q :: p <= q && HashAt(s, q) ==> q in r
    decreases |s| - p
  {
    if p >= |s| then []
    else if HashAt(s, p) then [p] + HashStarts(s, p + 1)
    else HashStarts(s, p + 1)
  }

  /** No match starts inside a word: word characters before `q` make no
      difference to `HashStarts`. */
  lemma {:induction false} HashStartsSkip(s: string, p: nat, q: nat)
    requires p <= q <= |s|
    requires forall i :: p <= i < q ==> IsWordChar(s[i])
    ensures HashStarts(s, p) == HashStarts(s, q)
    decreases q - p
  {
    if p < q {
      assert IsWordChar(s[p]);
      assert HashStarts(s, p) == HashStarts(s, p + 1);
      HashStartsSkip(s, p + 1, q);
    }
  }

  /** The global search finds every `#\w+` match, each with its whole word, in
      the order of the text: one match per position holding `#` and a word
      character. Inside a match there is no `#`, so no match is passed over. */
  lemma {:induction false} HashMatchesAll(s: string, p: nat)
    requires p <= |s|
    ensures TokensAt(HashMatches(s, p), s, HashStarts(s, p))
    decreases |s| - p
  {
    if p + 1 >= |s| {
      if p < |s| {
        assert !HashAt(s, p);
        assert HashStarts(s, p + 1) == [];
      }
    } else if HashAt(s, p) {
      HashMatchesAll(s, p + 1 + WordRun(s, p + 1));
      HashMatchesStep(s, p);
    } else {
      assert HashMatches(s, p) == HashMatches(s, p + 1);
      assert HashStarts(s, p) == HashStarts(s, p + 1);
      HashMatchesAll(s, p + 1);
    }
  }

  /** A match at `p` comes before the matches after its word. */
  lemma {:induction false} HashMatchesStep(s: string, p: nat)
    requires HashAt(s, p)
    requires TokensAt(HashMatches(s, p + 1 + WordRun(s, p + 1)), s, HashStarts(s, p + 1 + WordRun(s, p + 1)))
    ensures TokensAt(HashMatches(s, p), s, HashStarts(s, p))
  {
    var q := p + 1 + WordRun(s, p + 1);
    HashMatchesAfterToken(s, p);
    HashStartsAfterToken(s, p);
    TokensCons(HashMatches(s, q), s, HashStarts(s, q), p);
  }

  /** At a match start the search takes the token and goes on after its word. */
  lemma {:induction false} HashMatchesAfterToken(s: string, p: nat)
    requires HashAt(s, p)
    ensures HashMatches(s, p) == [HashToken(s, p)] + HashMatches(s, p + 1 + WordRun(s, p + 1))
  {
  }

  /** No match starts inside the word of a match. */
  lemma {:induction false} HashStartsAfterToken(s: string, p: nat)
    requires HashAt(s, p)
    ensures HashStarts(s, p) == [p] + HashStarts(s, p + 1 + WordRun(s, p + 1))
  {
    assert HashStarts(s, p) == [p] + HashStarts(s, p + 1);
    HashStartsSkip(s, p + 1, p + 1 + WordRun(s, p + 1));
  }

  /** `ms` are the `#\w+` matches of `s` that start at `starts`, in that order. */
  predicate TokensAt(ms: seq<string>, s: string, starts: seq<nat>) {
    && |ms| == |starts|
    && forall k :: 0 <= k < |starts| ==> HashAt(s, starts[k]) && ms[k] == HashToken(s, starts[k])
  }

  lemma {:induction false} TokensCons(ms: seq<string>, s: string, starts: seq<nat>, p: nat)
    requires TokensAt(ms, s, starts) && HashAt(s, p)
    ensures TokensAt([HashToken(s, p)] + ms, s, [p] + starts)
  {
    var ms', starts' := [HashToken(s, p)] + ms, [p] + starts;
    forall k | 1 <= k < |starts'| ensures HashAt(s, starts'[k]) && ms'[k] == HashToken(s, starts'[k]) {
      assert starts'[k] == starts[k - 1] && ms'[k] == ms[k - 1];
    }
  }

  /** `matches.map(t => t.replace(/^#/, ''))` */
  function StripAll(matches: seq<string>): (r: seq<string>)
    ensures |r| == |matches|
    ensures forall i :: 0 <= i < |r| ==> r[i] == StripHash(matches[i])
  {
    if matches == [] then [] else [StripHash(matches[0])] + StripAll(matches[1..])
  }

  /** The tags a scan reports. The first `Tags:` match in any letter case wins; if
      it is spelt exactly `Tags:`, its line is split into tags, and otherwise the
      match array itself, whole match and capture, is taken as the tag list. With
      no such match, every `#word` of the text is a tag. */
  function TagsOf(description: string): (tags: seq<string>)
    ensures var r := First(TagsMatches(description), 0);
            r.Some? && description[r.value.start..r.value.start + 5] == "Tags:" ==>
              forall i, j :: 0 <= i < |tags| && 0 <= j < |tags[i]| ==> !IsTagSeparator(tags[i][j])
    ensures var r := First(TagsMatches(description), 0);
            r.Some? && description[r.value.start..r.value.start + 5] == "Tags:" ==>
              forall i :: 0 <= i < |tags| ==> tags[i] != []
    ensures var r := First(TagsMatches(description), 0);
            r.Some? && description[r.value.start..r.value.start + 5] != "Tags:" ==> |tags| == 2
    ensures forall p :: 0 <= p <= |description| && TagsAt(description, p).Some? &&
                        (forall i :: 0 <= i < p ==> TagsAt(description, i).None?) ==>
              tags == TagLineTags(description, p)
    ensures (forall p :: 0 <= p <= |description| ==> TagsAt(description, p).None?) ==>
              tags == StripAll(HashMatches(description, 0))
  {
    FirstAtLeftmost(TagsMatches(description));
    match First(TagsMatches(description), 0)
    case Some(m) => TagLineTags(description, m.start)
    case None => StripAll(HashMatches(description, 0))
  }

  /** The tags a tag-line match at `p` gives: if the match starts with `Tags:`
      spelt exactly so, the cleaned pieces of its capture; otherwise the match
      array itself, the whole match and the capture, each without a leading `#`. */
  function TagLineTags(description: string, p: nat): (tags: seq<string>)
    requires TagsAt(description, p).Some?
    ensures description[p..p + 5] == "Tags:" ==>
              && (forall i, j :: 0 <= i < |tags| && 0 <= j < |tags[i]| ==> !IsTagSeparator(tags[i][j]))
              && (forall i :: 0 <= i < |tags| ==> tags[i] != [])
    ensures description[p..p + 5] != "Tags:" ==> |tags| == 2
  {
    var span := TagsAt(description, p).value;
    var capture := description[span.capStart..span.end];
    if description[p..p + 5] == "Tags:" then CleanTags(Pieces(capture))
    else [StripHash(description[p..span.end]), StripHash(capture)]
  }

  /** Without any `Tags:` match, the tags are the words of the `#word` tokens:
      non-empty runs of `\w` characters. */
  lemma {:induction false} HashTagsAreWords(description: string)
    requires First(TagsMatches(description), 0).None?
    ensures forall i :: 0 <= i < |TagsOf(description)| ==>
              TagsOf(description)[i] != [] && forall j :: 0 <= j < |TagsOf(description)[i]| ==> IsWordChar(TagsOf(description)[i][j])
  {
    var hs := HashMatches(description, 0);
    var tags := TagsOf(description);
    forall i | 0 <= i < |tags|
      ensures tags[i] != [] && forall j :: 0 <= j < |tags[i]| ==> IsWordChar(tags[i][j])
    {
      assert tags[i] == hs[i][1..];
      forall j | 0 <= j < |tags[i]| ensures IsWordChar(tags[i][j]) {
        assert tags[i][j] == hs[i][j + 1];
      }
    }
  }

  /** Without any `Tags:` match, the tags are the words of all `#word` tokens of
      the text, in order. */
  lemma {:induction false} HashTagsOf(description: string)
    requires forall p :: 0 <= p <= |description| ==> TagsAt(description, p).None?
    ensures WordsAt(TagsOf(description), description, HashStarts(description, 0))
  {
    assert TagsOf(description) == StripAll(HashMatches(description, 0));
    HashMatchesAll(description, 0);
    StripTokens(HashMatches(description, 0), description, HashStarts(description, 0));
  }

  /** `ws` are the words that follow a `#` at each of `starts`, in that order. */
  predicate WordsAt(ws: seq<string>, s: string, starts: seq<nat>) {
    && |ws| == |starts|
    && forall k :: 0 <= k < |starts| ==>
         starts[k] + 1 <= |s| && ws[k] == s[starts[k] + 1..starts[k] + 1 + WordRun(s, starts[k] + 1)]
  }

  /** The matches found at `starts`, without their `#`, are the words after each. */
  lemma {:induction false} StripTokens(ms: seq<string>, s: string, starts: seq<nat>)
    requires TokensAt(ms, s, starts)
    ensures WordsAt(StripAll(ms), s, starts)
  {
    forall k | 0 <= k < |starts|
      ensures StripAll(ms)[k] == s[starts[k] + 1..starts[k] + 1 + WordRun(s, starts[k] + 1)]
    {
      assert StripAll(ms)[k] == StripHash(ms[k]);
      assert ms[k] == HashToken(s, starts[k]);
    }
  }

  /** A text with no letter `t` in either case has no `Tags:` match anywhere. */
  lemma {:induction false} NoTagsLabel(description: string)
    requires forall i :: 0 <= i < |description| ==> description[i] != 't' && description[i] != 'T'
    ensures First(TagsMatches(description), 0).None?
  {
    forall p | 0 <= p <= |description| ensures TagsAt(description, p).None? {
      if p < |description| {
        assert !CiEq(description[p], 't');
      }
    }
  }

  /** A run of word characters that ends at `p + len` has `len` characters. */
  lemma {:induction false} WordRunExact(s: string, p: nat, len: nat)
    requires p + len <= |s|
    requires forall i :: p <= i < p + len ==> IsWordChar(s[i])
    requires p + len == |s| || !IsWordChar(s[p + len])
    ensures WordRun(s, p) == len
    decreases len
  {
    if len > 0 {
      WordRunExact(s, p + 1, len - 1);
    }
  }

  lemma {:induction false} PiecesExample(c: string)
    requires c == "a, b"
    ensures Pieces(c) == ["a", "b"]
  {
    var b := c[3..];
    assert b == "b" && b[1..] == [] && b[..1] == "b";
    assert PieceRun(b) == 1;
    assert Pieces(b) == ["b"];
    assert c[1..] == ", b" && c[1..][1..] == " b" && c[1..][1..][1..] == b;
    assert Pieces(c[1..]) == ["b"];
    assert PieceRun(c[1..]) == 0;
    assert PieceRun(c) == 1;
    assert c[..1] == "a";
  }

  lemma {:induction false} ExplicitTagsMatch(d: string)
    requires d == "# Foo\nTags: a, b"
    ensures First(TagsMatches(d), 0) == Some(Match(6, 12, 16))
    ensures d[6..11] == "Tags:" && d[12..16] == "a, b"
  {
    ExplicitTagsLine(d);
    forall i | 0 <= i < 6 ensures TagsAt(d, i).None? {
      assert !CiEq(d[i], 't');
    }
    FirstFinds(TagsMatches(d), 0, 6);
  }

  lemma {:induction false} ExplicitTagsLine(d: string)
    requires d == "# Foo\nTags: a, b"
    ensures TagsAt(d, 6) == Some(Span(12, 16))
  {
    assert TagsLabelAt(d, 6);
    assert SpaceRun(d, 12) == 0;
    assert SpaceRun(d, 11) == 1;
    LineRunExact(d, 12, 4);
  }

  lemma {:induction false} CleanTagsExample(ab: seq<string>)
    requires ab == ["a", "b"]
    ensures CleanTags(ab) == ab
  {
    assert ab[1..] == ["b"] && ab[1..][1..] == [];
  }

  lemma {:induction false} TagsOfExplicitLine(d: string, m: Match)
    requires First(TagsMatches(d), 0) == Some(m)
    requires d[m.start..m.start + 5] == "Tags:"
    ensures TagsOf(d) == CleanTags(Pieces(d[m.capStart..m.end]))
  {
  }

  /** A heading and an explicit tag line: the title is the heading text. */
  lemma {:induction false} HeadingTitleExample(d: string, id: string)
    requires d == "# Foo\nTags: a, b"
    ensures TitleOf(d, id) == "Foo"
  {
    TitleOfLeadingHeading(d, id, "Foo", "\nTags: a, b");
  }

  /** A heading and an explicit tag line: the tags are the comma-separated words. */
  lemma {:induction false} ExplicitTagsExample(d: string)
    requires d == "# Foo\nTags: a, b"
    ensures TagsOf(d) == ["a", "b"]
  {
    ExplicitTagsMatch(d);
    TagsOfExplicitLine(d, Match(6, 12, 16));
    PiecesExample(d[12..16]);
    CleanTagsExample(["a", "b"]);
  }

  /** A `tags:` line in lower case: the whole match and the capture become the
      two tags. */
  lemma {:induction false} LowercaseTagsExample(d: string)
    requires d == "tags: #x"
    ensures TagsOf(d) == ["tags: #x", "x"]
  {
    assert SpaceRun(d, 6) == 0;
    assert SpaceRun(d, 5) == 1;
    LineRunExact(d, 6, 2);
    assert TagsAt(d, 0) == Some(Span(6, 8));
    assert d[0..5][0] != "Tags:"[0];
    assert d[0..8] == d && d[6..8] == "#x";
  }

  lemma {:induction false} HashMatchesExample(d: string)
    requires d == "#alpha #bee"
    ensures HashMatches(d, 0) == ["#alpha", "#bee"]
  {
    WordRunExact(d, 8, 3);
    assert HashMatches(d, 11) == [];
    assert HashMatches(d, 7) == [d[7..11]];
    assert HashMatches(d, 6) == HashMatches(d, 7);
    WordRunExact(d, 1, 5);
    assert HashMatches(d, 0) == [d[0..6]] + HashMatches(d, 6);
    assert d[0..6] == "#alpha" && d[7..11] == "#bee";
  }

  /** Without a tag line, every `#word` is a tag. */
  lemma {:induction false} HashTagsExample(d: string)
    requires d == "#alpha #bee"
    ensures TagsOf(d) == ["alpha", "bee"]
  {
    NoTagsLabel(d);
    HashMatchesExample(d);
    assert StripAll(["#alpha", "#bee"]) == ["alpha", "bee"];
  }
}
