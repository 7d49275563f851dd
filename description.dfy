/** The description.md a new task starts with, and the rewrite of its `Status:`
    line when the task moves to another column (backend/server.js). */
module Description {
  import opened Wrappers
  import opened Text
  import opened Metadata

  /** `status.charAt(0).toUpperCase() + status.slice(1)` */
  function Capitalize(status: string): (r: string)
    ensures |r| == |status|
    ensures status != [] && 'a' <= status[0] <= 'z' ==> 'A' <= r[0] <= 'Z' && CiEq(r[0], status[0])
    ensures forall i :: 1 <= i < |r| ==> r[i] == status[i]
    ensures forall i :: 0 <= i < |r| ==> IsWordChar(r[i]) == IsWordChar(status[i])
  {
    if status == [] then [] else [UpperOf(status[0])] + status[1..]
  }

  /** Everything of a new description after its `Status:` line's label. */
  const Boilerplate: string := "\n\n" + Sections

  /** The sections of a new description. */
  const Sections: string :=
    "## Description\n\nThis task was created via the Kanban interface.\n\n"
    + "## Objectives\n\n- [ ] Define specific goals\n- [ ] Add relevant links and resources\n"
    + "- [ ] Update status as work progresses\n\n## Links\n\n- (Add relevant links here)\n\n"
    + "## Next Steps\n\n1. Define task scope\n2. Add necessary resources\n3. Begin execution\n\n"
    + "## Notes\n\n(Add your notes here...)"

  /** The description.md written when a task is created in column `status`. */
  function Template(status: string, title: string, today: string): string {
    Head(status, title, today) + Boilerplate
  }

  /** A template up to the end of its `Status:` line's label. */
  function Head(status: string, title: string, today: string): string {
    Pre(title, today) + "Status: " + Capitalize(status)
  }

  /** A template's heading and creation lines. */
  function Pre(title: string, today: string): string {
    "# " + title + "\n\nCreated: " + today + "\n"
  }

  /** Where the `Status:` line of a template starts. */
  function StatusLine(title: string, today: string): nat {
    |title| + |today| + 14
  }

  lemma {:induction false} BoilerplateStart()
    ensures |Boilerplate| >= 2 && Boilerplate[0] == '\n' && Boilerplate[1] == '\n'
  {
    assert Boilerplate[..2] == "\n\n";
  }

  /** `t` starts with a template's heading and creation lines. */
  predicate PreLaidOut(t: string, title: string, today: string) {
    var a := |title|;
    && |t| >= StatusLine(title, today)
    && t[0] == '#' && t[1] == ' '
    && (forall i :: 0 <= i < a ==> t[2 + i] == title[i])
    && t[2 + a] == '\n' && t[3 + a] == '\n'
    && (forall i :: 0 <= i < 9 ==> t[4 + a + i] == "Created: "[i])
    && (forall i :: 0 <= i < |today| ==> t[13 + a + i] == today[i])
    && t[13 + a + |today|] == '\n'
  }

  lemma {:induction false} PreLayout(title: string, today: string, rest: string)
    ensures |Pre(title, today)| == StatusLine(title, today)
    ensures PreLaidOut(Pre(title, today) + rest, title, today)
  {
    var a := "# " + title;
    var b := a + "\n\nCreated: ";
    var c := b + today;
    var d := c + "\n";
    var t := d + rest;
    assert t == Pre(title, today) + rest;
    assert t[..|d|] == d && d[..|c|] == c && c[..|b|] == b && b[..|a|] == a;
    forall i | 0 <= i < 9 ensures t[4 + |title| + i] == "Created: "[i] {
      assert t[4 + |title| + i] == b[4 + |title| + i];
    }
  }

  /** The pieces of a template followed by `rest`, by position. */
  lemma {:induction false} HeadLayout(status: string, title: string, today: string, rest: string)
    ensures LaidOut(Head(status, title, today) + rest, status, title, today, rest)
  {
    var pre, word := Pre(title, today), Capitalize(status);
    var tail := "Status: " + (word + rest);
    var t := Head(status, title, today) + rest;
    assert t == pre + tail by {
      Regroup(pre, "Status: ", word, rest);
    }
    PreLayout(title, today, tail);
    assert t[|pre|..] == tail;
    TailLayout(t, |pre|, word, rest);
  }

  lemma {:induction false} Regroup(a: string, b: string, c: string, d: string)
    ensures a + b + c + d == a + (b + (c + d))
  {
  }

  /** A text holding `Status: `, `word` and `rest` from `p` on, by position. */
  lemma {:induction false} TailLayout(t: string, p: nat, word: string, rest: string)
    requires p <= |t| && t[p..] == "Status: " + (word + rest)
    ensures |t| == p + 8 + |word| + |rest|
    ensures t[p..p + 8] == "Status: "
    ensures forall i :: 0 <= i < |word| ==> t[p + 8 + i] == word[i]
    ensures forall i :: 0 <= i < |rest| ==> t[p + 8 + |word| + i] == rest[i]
  {
    var tail := t[p..];
    assert t[p..p + 8] == tail[..8];
    forall i | 0 <= i < |word| ensures t[p + 8 + i] == word[i] {
      assert t[p + 8 + i] == tail[8 + i] == (word + rest)[i];
    }
    forall i | 0 <= i < |rest| ensures t[p + 8 + |word| + i] == rest[i] {
      assert t[p + 8 + |word| + i] == tail[8 + |word| + i] == (word + rest)[|word| + i];
    }
  }

  /** `description.replace(/Status:\s*\w+/i, 'Status: ' + word)`: only the first
      match is replaced, and a description without one comes back unchanged. */
  function RewriteStatus(description: string, word: string): (r: string)
    ensures First(StatusMatches(description), 0).None? ==> r == description
    ensures (forall p :: 0 <= p <= |description| ==> StatusAt(description, p).None?) ==> r == description
    ensures forall p :: 0 <= p <= |description| && StatusAt(description, p).Some? &&
                        (forall i :: 0 <= i < p ==> StatusAt(description, i).None?) ==>
              r == description[..p] + "Status: " + word + description[StatusAt(description, p).value.end..]
  {
    FirstAtLeftmost(StatusMatches(description));
    match First(StatusMatches(description), 0)
    case Some(m) => description[..m.start] + "Status: " + word + description[m.end..]
    case None => description
  }

  /** In a text laid out like a template, no `Status:` match starts before the
      status line as long as the title holds none. */
  lemma {:induction false} NoStatusBefore(t: string, title: string, today: string)
    requires PreLaidOut(t, title, today)
    requires IsIsoDate(today)
    requires !CiContains(title, "status:")
    ensures forall i :: 0 <= i < StatusLine(title, today) ==> StatusAt(t, i).None?
  {
    var a := |title|;
    var p := StatusLine(title, today);
    var pat := "status:";
    NoCiPrefixFrom(t, pat, 0, 2);
    assert t[2..2 + a] == title;
    NoCiPrefixInside(t, pat, 2, 2 + a);
    forall i | 3 + a <= i < p ensures !CiEq(t[i], pat[0]) {
      if 4 + a <= i < 13 + a {
        assert t[i] == "Created: "[i - 4 - a];
      } else if 13 + a <= i < p - 1 {
        assert t[i] == today[i - 13 - a];
      }
    }
    NoCiPrefixFrom(t, pat, 3 + a, p);
    forall i | 0 <= i < p ensures !StatusLabelAt(t, i) {
      StatusLabelIsCiPrefix(t, i);
    }
  }

  /** A text laid out like a template with status `status` followed by `rest`. */
  predicate LaidOut(t: string, status: string, title: string, today: string, rest: string) {
    var p := StatusLine(title, today);
    && |t| == p + 8 + |status| + |rest|
    && PreLaidOut(t, title, today)
    && t[p..p + 8] == "Status: "
    && (forall i :: 0 <= i < |status| ==> t[p + 8 + i] == Capitalize(status)[i])
    && (forall i :: 0 <= i < |rest| ==> t[p + 8 + |status| + i] == rest[i])
  }

  /** `t` holds a whole word of `w` characters from position `q` on: word
      characters, then the end of `t` or a character that is not one. */
  predicate WordAt(t: string, q: nat, w: nat) {
    && w >= 1 && q + w <= |t|
    && (forall i :: q <= i < q + w ==> IsWordChar(t[i]))
    && (q + w == |t| || !IsWordChar(t[q + w]))
  }

  /** In a text laid out like a template, the first `Status:` match is the status
      line, and its word is the leading run of word characters of the status. */
  lemma {:induction false} LaidOutStatus(t: string, status: string, title: string, today: string, rest: string)
    requires LaidOut(t, status, title, today, rest)
    requires IsIsoDate(today)
    requires !CiContains(title, "status:")
    requires status != [] && IsWordChar(status[0])
    requires rest != [] && !IsWordChar(rest[0])
    ensures var p := StatusLine(title, today);
            && (forall i :: 0 <= i < p ==> StatusAt(t, i).None?)
            && StatusAt(t, p) == Some(Span(p + 8, p + 8 + WordRun(status, 0)))
  {
    NoStatusBefore(t, title, today);
    StatusLineOf(t, status, title, today, rest);
  }

  /** A `Status: ` followed by a status and then by something other than a word
      character matches, with the leading word of the status as its word. */
  lemma {:induction false} StatusLineOf(t: string, status: string, title: string, today: string, rest: string)
    requires LaidOut(t, status, title, today, rest)
    requires status != [] && IsWordChar(status[0])
    requires rest != [] && !IsWordChar(rest[0])
    ensures var p := StatusLine(title, today);
            StatusAt(t, p) == Some(Span(p + 8, p + 8 + WordRun(status, 0)))
  {
    var p := StatusLine(title, today);
    StatusWord(t, p, status, rest);
    StatusLineMatch(t, p, WordRun(status, 0));
  }

  /** The word after a template's `Status: ` is the leading word of its status. */
  lemma {:induction false} StatusWord(t: string, p: nat, status: string, rest: string)
    requires |t| == p + 8 + |status| + |rest|
    requires forall i :: 0 <= i < |status| ==> t[p + 8 + i] == Capitalize(status)[i]
    requires forall i :: 0 <= i < |rest| ==> t[p + 8 + |status| + i] == rest[i]
    requires status != [] && IsWordChar(status[0])
    requires rest != [] && !IsWordChar(rest[0])
    ensures WordAt(t, p + 8, WordRun(status, 0))
  {
    StatusWordChars(t, p, status);
    StatusWordEnd(t, p, status, rest);
  }

  /** The leading word of the status, capitalised, is made of word characters. */
  lemma {:induction false} StatusWordChars(t: string, p: nat, status: string)
    requires p + 8 + |status| <= |t|
    requires forall i :: 0 <= i < |status| ==> t[p + 8 + i] == Capitalize(status)[i]
    ensures forall i :: p + 8 <= i < p + 8 + WordRun(status, 0) ==> IsWordChar(t[i])
  {
    forall i | p + 8 <= i < p + 8 + WordRun(status, 0) ensures IsWordChar(t[i]) {
      assert t[i] == Capitalize(status)[i - p - 8];
    }
  }

  /** What follows the leading word of the status is not a word character. */
  lemma {:induction false} StatusWordEnd(t: string, p: nat, status: string, rest: string)
    requires |t| == p + 8 + |status| + |rest|
    requires forall i :: 0 <= i < |status| ==> t[p + 8 + i] == Capitalize(status)[i]
    requires forall i :: 0 <= i < |rest| ==> t[p + 8 + |status| + i] == rest[i]
    requires rest != [] && !IsWordChar(rest[0])
    ensures p + 8 + WordRun(status, 0) < |t| && !IsWordChar(t[p + 8 + WordRun(status, 0)])
  {
    var w := WordRun(status, 0);
    if w < |status| {
      assert t[p + 8 + w] == Capitalize(status)[w];
    } else {
      assert t[p + 8 + w] == rest[0];
    }
  }

  /** `Status: ` followed by a word is a `Status:` match. */
  lemma {:induction false} StatusLineMatch(t: string, p: nat, w: nat)
    requires p + 8 <= |t| && t[p..p + 8] == "Status: " && WordAt(t, p + 8, w)
    ensures StatusAt(t, p) == Some(Span(p + 8, p + 8 + w))
  {
    StatusLabelPrefix(t, p);
    assert IsWordChar(t[p + 8]);
    SpaceRunOne(t, p + 7);
    WordRunExact(t, p + 8, w);
  }

  lemma {:induction false} StatusLabelPrefix(t: string, p: nat)
    requires p + 8 <= |t| && t[p..p + 8] == "Status: "
    ensures StatusLabelAt(t, p) && t[p + 7] == ' '
  {
    var head := t[p..p + 8];
    assert forall k :: 0 <= k < 8 ==> t[p + k] == head[k];
  }

  /** Two texts laid out like templates with the same title and date agree up to
      their status lines. */
  lemma {:induction false} PreAgree(t: string, u: string, title: string, today: string)
    requires PreLaidOut(t, title, today) && PreLaidOut(u, title, today)
    ensures forall i :: 0 <= i < StatusLine(title, today) ==> t[i] == u[i]
  {
    var a := |title|;
    forall i | 0 <= i < StatusLine(title, today) ensures t[i] == u[i] {
      if 2 <= i < 2 + a {
        assert t[i] == title[i - 2] == u[i];
      } else if 4 + a <= i < 13 + a {
        assert t[i] == "Created: "[i - 4 - a] == u[i];
      } else if 13 + a <= i < 13 + a + |today| {
        assert t[i] == today[i - 13 - a] == u[i];
      }
    }
  }

  /** Splicing `Status: ` and the capitalised `to` over the status line of a text
      laid out with status `from`, whose word is the first `w` characters of `from`,
      gives the text laid out with status `to` followed by the rest of `from`. */
  lemma {:induction false} Splice(t: string, u: string, from: string, to: string, status: string, title: string, today: string, rest: string, w: nat)
    requires 1 <= w <= |from| && to != [] && status == to + from[w..]
    requires LaidOut(t, from, title, today, rest)
    requires LaidOut(u, status, title, today, rest)
    ensures var p := StatusLine(title, today);
            u == t[..p] + "Status: " + Capitalize(to) + t[p + 8 + w..]
  {
    var p := StatusLine(title, today);
    var v := t[..p] + "Status: " + Capitalize(to) + t[p + 8 + w..];
    var s := status;
    PreAgree(t, u, title, today);
    assert |v| == |u|;
    forall i | 0 <= i < |u| ensures u[i] == v[i] {
      if i < p {
        assert v[i] == t[i];
      } else if i < p + 8 {
        assert v[i] == "Status: "[i - p] == u[i];
      } else if i < p + 8 + |to| {
        assert v[i] == Capitalize(to)[i - p - 8];
        SpliceWord(u, to, status, title, today, rest, i);
      } else {
        assert v[i] == t[i - |to| + w];
        SpliceRest(t, u, from, to, status, title, today, rest, w, i);
      }
    }
  }

  /** Over the new status word, the text laid out with status `to + …` holds the
      capitalised `to`. */
  lemma {:induction false} SpliceWord(u: string, to: string, status: string, title: string, today: string, rest: string, i: nat)
    requires to != [] && |to| <= |status| && status[..|to|] == to
    requires LaidOut(u, status, title, today, rest)
    requires StatusLine(title, today) + 8 <= i < StatusLine(title, today) + 8 + |to|
    ensures u[i] == Capitalize(to)[i - StatusLine(title, today) - 8]
  {
    var k := i - StatusLine(title, today) - 8;
    assert u[i] == Capitalize(status)[k];
    if k > 0 {
      assert status[k] == status[..|to|][k] == to[k];
    }
  }

  /** After the new status word, the text laid out with status `to + from[w..]`
      holds what the text laid out with status `from` holds after its first `w`
      status characters. */
  lemma {:induction false} SpliceRest(t: string, u: string, from: string, to: string, status: string, title: string, today: string, rest: string, w: nat, i: nat)
    requires 1 <= w <= |from| && to != [] && status == to + from[w..]
    requires LaidOut(t, from, title, today, rest)
    requires LaidOut(u, status, title, today, rest)
    requires StatusLine(title, today) + 8 + |to| <= i < |u|
    ensures u[i] == t[i - |to| + w]
  {
    var p := StatusLine(title, today);
    if i < p + 8 + |status| {
      var k := i - p - 8 - |to|;
      assert u[i] == Capitalize(status)[|to| + k] == status[|to| + k] == from[w + k];
      assert t[p + 8 + w + k] == Capitalize(from)[w + k] == from[w + k];
    } else {
      var k := i - p - 8 - |status|;
      assert u[i] == rest[k];
      assert t[p + 8 + |from| + k] == rest[k];
    }
  }

  /** When the first `Status:` match of `t` starts at `p` and ends at `e`, whatever
      whitespace follows the label, `RewriteStatus` puts `Status: ` and the new
      word there and keeps everything around it. */
  lemma {:induction false} RewriteFirst(t: string, u: string, word: string, p: nat, c: nat, e: nat)
    requires forall i :: 0 <= i < p ==> StatusAt(t, i).None?
    requires StatusAt(t, p) == Some(Span(c, e))
    requires u == t[..p] + "Status: " + word + t[e..]
    ensures RewriteStatus(t, word) == u
  {
    FirstFinds(StatusMatches(t), 0, p);
  }

  /** Rewriting the status of a text laid out like a template with status `from`
      gives the text laid out with status `to` followed by the rest of `from`. */
  lemma {:induction false} MoveLaidOut(t: string, u: string, from: string, to: string, status: string, title: string, today: string, rest: string)
    requires IsIsoDate(today)
    requires !CiContains(title, "status:")
    requires from != [] && IsWordChar(from[0])
    requires to != [] && status == to + from[WordRun(from, 0)..]
    requires rest != [] && !IsWordChar(rest[0])
    requires LaidOut(t, from, title, today, rest)
    requires LaidOut(u, status, title, today, rest)
    ensures RewriteStatus(t, Capitalize(to)) == u
  {
    LaidOutStatus(t, from, title, today, rest);
    Splice(t, u, from, to, status, title, today, rest, WordRun(from, 0));
    var p := StatusLine(title, today);
    RewriteFirst(t, u, Capitalize(to), p, p + 8, p + 8 + WordRun(from, 0));
  }

  /** Rewriting the status of a template's head followed by `rest` replaces the
      leading word of its status `from` by `to` and leaves the rest of the status
      behind: the result is the head with status `to + ` what followed that word. */
  lemma {:induction false} HeadMove(from: string, to: string, status: string, title: string, today: string, rest: string)
    requires IsIsoDate(today)
    requires !CiContains(title, "status:")
    requires from != [] && IsWordChar(from[0])
    requires to != [] && status == to + from[WordRun(from, 0)..]
    requires rest != [] && !IsWordChar(rest[0])
    ensures RewriteStatus(Head(from, title, today) + rest, Capitalize(to)) == Head(status, title, today) + rest
  {
    HeadLayout(from, title, today, rest);
    HeadLayout(status, title, today, rest);
    MoveLaidOut(Head(from, title, today) + rest, Head(status, title, today) + rest, from, to, status, title, today, rest);
  }

  /** Moving a task from one column to another rewrites the `Status:` line of the
      description it was created with to the one it would have been created with. */
  lemma {:induction false} TemplateMove(from: string, to: string, title: string, today: string)
    requires IsIsoDate(today)
    requires !CiContains(title, "status:")
    requires from != [] && forall i :: 0 <= i < |from| ==> IsWordChar(from[i])
    requires to != []
    ensures RewriteStatus(Template(from, title, today), Capitalize(to)) == Template(to, title, today)
  {
    BoilerplateStart();
    WordRunExact(from, 0, |from|);
    assert to + from[|from|..] == to;
    HeadMove(from, to, to, title, today, Boilerplate);
  }

  /** Moving a task created in `blog-publish` to `done` leaves a status line that
      reads `Done-publish`: only the word before the hyphen is replaced. */
  lemma {:induction false} BlogPublishMove(from: string, title: string, today: string)
    requires from == "blog-publish"
    requires IsIsoDate(today)
    requires !CiContains(title, "status:")
    ensures RewriteStatus(Template(from, title, today), Capitalize("done")) == Template("done-publish", title, today)
  {
    BoilerplateStart();
    WordRunExact(from, 0, 4);
    assert "done" + from[4..] == "done-publish";
    HeadMove(from, "done", "done-publish", title, today, Boilerplate);
  }

  // ---------------------------------------------------------------- scanning a template back

  /** A text that starts with a template's heading and creation lines, split
      after its heading text. */
  lemma {:induction false} PreSplit(title: string, today: string, rest: string)
    ensures Pre(title, today) + rest == "# " + title + ("\n\nCreated: " + today + "\n" + rest)
  {
  }

  /** The heading of a text that starts like a template is its title, for a
      title on one line that does not start with whitespace. */
  lemma {:induction false} HeadTitle(status: string, title: string, today: string, id: string, rest: string)
    requires title != [] && !IsSpace(title[0])
    requires forall i :: 0 <= i < |title| ==> !IsLineTerminator(title[i])
    ensures TitleOf(Head(status, title, today) + rest, id) == title
  {
    var tail := "Status: " + Capitalize(status) + rest;
    assert Head(status, title, today) + rest == Pre(title, today) + tail;
    PreSplit(title, today, tail);
    TitleOfLeadingHeading(Head(status, title, today) + rest, id, title, "\n\nCreated: " + today + "\n" + tail);
  }

  /** Scanning a new description back gives the title it was created with, for
      a title on one line that does not start with whitespace. */
  lemma {:induction false} TemplateTitle(status: string, title: string, today: string, id: string)
    requires title != [] && !IsSpace(title[0])
    requires forall i :: 0 <= i < |title| ==> !IsLineTerminator(title[i])
    ensures TitleOf(Template(status, title, today), id) == title
  {
    HeadTitle(status, title, today, id, Boilerplate);
  }

  /** With an empty title the heading pattern skips the blank lines after `#`
      and takes the creation line as the title. */
  lemma {:induction false} HeadEmptyTitle(status: string, today: string, id: string, rest: string)
    requires IsIsoDate(today)
    ensures TitleOf(Head(status, "", today) + rest, id) == "Created: " + today
  {
    var t := Head(status, "", today) + rest;
    HeadLayout(status, "", today, rest);
    EmptyHeadingMatch(t, today);
    FirstFinds(TitleMatches(t), 0, 0);
    CreationLineText(t, today);
  }

  /** The heading pattern matches at the start of an empty-titled template, its
      text being the creation line. */
  lemma {:induction false} EmptyHeadingMatch(t: string, today: string)
    requires PreLaidOut(t, "", today)
    requires IsIsoDate(today)
    ensures TitleAt(t, 0) == Some(Span(4, 23))
  {
    var c := "Created: ";
    assert t[1] == ' ' && t[2] == '\n' && t[3] == '\n' && t[4] == c[0];
    SpaceRunOne(t, 3);
    assert SpaceRun(t, 1) == 3;
    forall i | 4 <= i < 23 ensures !IsLineTerminator(t[i]) {
      if i < 13 {
        assert t[i] == c[i - 4];
      } else {
        assert t[i] == today[i - 13];
      }
    }
    LineRunExact(t, 4, 19);
  }

  /** The creation line of an empty-titled template. */
  lemma {:induction false} CreationLineText(t: string, today: string)
    requires PreLaidOut(t, "", today)
    ensures |t| >= 13 + |today| && t[4..13 + |today|] == "Created: " + today
  {
    var c := "Created: ";
    forall i | 0 <= i < 9 + |today| ensures t[4..13 + |today|][i] == (c + today)[i] {
      if i < 9 {
        assert t[4 + i] == c[i];
      } else {
        assert t[4 + i] == today[i - 9];
      }
    }
  }

  /** A task created with an empty title scans back with its creation line as
      its title. */
  lemma {:induction false} EmptyTitleQuirk(status: string, today: string, id: string)
    requires IsIsoDate(today)
    ensures TitleOf(Template(status, "", today), id) == "Created: " + today
  {
    HeadEmptyTitle(status, today, id, Boilerplate);
  }

  /** In a text laid out like a template, no `Created:` match starts before the
      creation line as long as the title holds none. */
  lemma {:induction false} NoCreatedBefore(t: string, title: string, today: string)
    requires PreLaidOut(t, title, today)
    requires !CiContains(title, "created:")
    ensures forall i :: 0 <= i < 4 + |title| ==> CreatedAt(t, i).None?
  {
    var a := |title|;
    var pat := "created:";
    NoCiPrefixFrom(t, pat, 0, 2);
    assert t[2..2 + a] == title;
    NoCiPrefixInside(t, pat, 2, 2 + a);
    NoCiPrefixFrom(t, pat, 3 + a, 4 + a);
    forall i | 0 <= i < 4 + a ensures !CreatedLabelAt(t, i) {
      CreatedLabelIsCiPrefix(t, i);
    }
  }

  /** The creation line of a text laid out like a template matches `Created:`. */
  lemma {:induction false} CreatedLineOf(t: string, title: string, today: string)
    requires PreLaidOut(t, title, today)
    requires IsIsoDate(today)
    ensures CreatedAt(t, 4 + |title|) == Some(Span(13 + |title|, 23 + |title|))
    ensures t[13 + |title|..23 + |title|] == today
  {
    var a := |title|;
    var c := "Created: ";
    assert CreatedLabelAt(t, 4 + a) by {
      assert t[4 + a] == c[0] && t[5 + a] == c[1] && t[6 + a] == c[2] && t[7 + a] == c[3];
      assert t[8 + a] == c[4] && t[9 + a] == c[5] && t[10 + a] == c[6] && t[11 + a] == c[7];
    }
    assert t[12 + a] == c[8] && t[13 + a] == today[0];
    SpaceRunOne(t, 12 + a);
    assert t[13 + a..23 + a] == today;
  }

  /** The creation line of a text that starts like a template is its date, as
      long as the title holds no `Created:` of its own. */
  lemma {:induction false} HeadCreated(status: string, title: string, today: string, other: string, rest: string)
    requires IsIsoDate(today)
    requires !CiContains(title, "created:")
    ensures CreatedOf(Head(status, title, today) + rest, other) == today
  {
    var t := Head(status, title, today) + rest;
    HeadLayout(status, title, today, rest);
    NoCreatedBefore(t, title, today);
    CreatedLineOf(t, title, today);
    FirstFinds(CreatedMatches(t), 0, 4 + |title|);
  }

  /** Scanning a new description back gives the date it was created on, as long
      as the title holds no `Created:` of its own. */
  lemma {:induction false} TemplateCreated(status: string, title: string, today: string, other: string)
    requires IsIsoDate(today)
    requires !CiContains(title, "created:")
    ensures CreatedOf(Template(status, title, today), other) == today
  {
    HeadCreated(status, title, today, other, Boilerplate);
  }
}
