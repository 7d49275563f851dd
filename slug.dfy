/** Derivation of a task id from its title (backend/server.js, create handler):
    lower-case, fold accents, replace every character outside `[a-z0-9]` by `-`,
    collapse runs of `-`, and drop one `-` at each end. */
module Slug {
  import opened Text

  /** The character class of the accent-folding step, as the source file spells
      it. The file's text is double-encoded, so the class holds these seven
      characters rather than the six Nordic letters it was meant to hold. */
  const AccentClass: set<char> := {'\U{C3}', '\U{A5}', '\U{A4}', '\U{B6}', '\U{2026}', '\U{201E}', '\U{2013}'}

  /** Characters an id is made of. */
  predicate IsSlugChar(c: char) {
    IsLowerAlnum(c) || c == '-'
  }

  predicate AllSlugChars(s: string) {
    forall i :: 0 <= i < |s| ==> IsSlugChar(s[i])
  }

  predicate NoDoubleHyphen(s: string) {
    forall i :: 0 <= i < |s| - 1 ==> !(s[i] == '-' && s[i + 1] == '-')
  }

  /** What the derivation promises of every id. */
  predicate IsSlug(s: string) {
    && AllSlugChars(s)
    && NoDoubleHyphen(s)
    && (s != [] ==> s[0] != '-' && s[|s| - 1] != '-')
  }

  /** The accent-folding step: every character of the class is replaced by what
      the replacement callback `fold` gives for it. */
  function FoldAccents(s: string, fold: char -> string): string {
    if s == [] then []
    else (if s[0] in AccentClass then fold(s[0]) else [s[0]]) + FoldAccents(s[1..], fold)
  }

  /** `.replace(/[^a-z0-9]/g, '-')` */
  function Sanitize(s: string): (r: string)
    ensures |r| == |s|
    ensures AllSlugChars(r)
    ensures forall i :: 0 <= i < |s| ==> r[i] == if IsLowerAlnum(s[i]) then s[i] else '-'
  {
    if s == [] then [] else [if IsLowerAlnum(s[0]) then s[0] else '-'] + Sanitize(s[1..])
  }

  /** `.replace(/-+/g, '-')` */
  function Collapse(s: string): (r: string)
    ensures |r| <= |s|
    ensures NoDoubleHyphen(r)
    ensures forall c :: c in r ==> c in s
    ensures AllSlugChars(s) ==> AllSlugChars(r)
    ensures (forall i :: 0 <= i < |s| ==> s[i] == '-') ==> |r| <= 1
    ensures s != [] ==> r != [] && r[0] == s[0] && r[|r| - 1] == s[|s| - 1]
    ensures NoDoubleHyphen(s) ==> r == s
  {
    if |s| <= 1 then s
    else if s[0] == '-' && s[1] == '-' then Collapse(s[1..])
    else [s[0]] + Collapse(s[1..])
  }

  /** `.replace(/^-|-$/g, '')`: one leading and one trailing hyphen go. */
  function TrimHyphens(s: string): (r: string)
    ensures NoDoubleHyphen(s) && AllSlugChars(s) ==> IsSlug(r)
    ensures IsSlug(s) ==> r == s
  {
    var t := if s != [] && s[0] == '-' then s[1..] else s;
    if t != [] && t[|t| - 1] == '-' then t[..|t| - 1] else t
  }

  /** The task id the create handler derives from `title`. */
  function Slugify(title: string, fold: char -> string): (id: string)
    ensures IsSlug(id)
  {
    TrimHyphens(Collapse(Sanitize(FoldAccents(Lower(title), fold))))
  }

  lemma {:induction false} FoldAccentsKeeps(s: string, fold: char -> string)
    requires forall i :: 0 <= i < |s| ==> s[i] !in AccentClass
    ensures FoldAccents(s, fold) == s
  {
    if s != [] {
      FoldAccentsKeeps(s[1..], fold);
    }
  }

  lemma {:induction false} SanitizeKeeps(s: string)
    requires AllSlugChars(s)
    ensures Sanitize(s) == s
  {
    if s != [] {
      SanitizeKeeps(s[1..]);
    }
  }

  /** An id is its own slug. */
  lemma {:induction false} SlugifyKeepsSlug(id: string, fold: char -> string)
    requires IsSlug(id)
    ensures Slugify(id, fold) == id
  {
    LowerKeepsLowerAlnum(id);
    FoldAccentsKeeps(id, fold);
    SanitizeKeeps(id);
    assert Sanitize(FoldAccents(Lower(id), fold)) == id;
  }

  /** Deriving an id from an id gives it back. */
  lemma {:induction false} SlugifyIdempotent(title: string, fold: char -> string)
    ensures Slugify(Slugify(title, fold), fold) == Slugify(title, fold)
  {
    SlugifyKeepsSlug(Slugify(title, fold), fold);
  }

  /** A title in which, once lower-cased, nothing is a letter `a`-`z`, a digit or an
      accent-class character gives the empty id. */
  lemma {:induction false} SlugifyEmpty(title: string, fold: char -> string)
    requires forall c :: c in Lower(title) ==> !IsLowerAlnum(c) && c !in AccentClass
    ensures Slugify(title, fold) == []
  {
    var low := Lower(title);
    FoldAccentsKeeps(low, fold);
    var s := Sanitize(low);
    assert forall i :: 0 <= i < |s| ==> s[i] == '-' by {
      forall i | 0 <= i < |s| ensures s[i] == '-' {
        assert low[i] in Lower(title);
      }
    }
  }

  lemma {:induction false} LowerExample(title: string)
    requires title == "My New Idea!"
    ensures Lower(title) == "my new idea!"
  {
    LowerByIndex(title);
  }

  lemma {:induction false} SanitizeExample(low: string)
    requires low == "my new idea!"
    ensures Sanitize(low) == "my-new-idea-"
  {
  }

  lemma {:induction false} CollapseExample(s: string)
    requires s == "my-new-idea-"
    ensures Collapse(s) == s
  {
    forall i | 0 <= i < |s| - 1 ensures !(s[i] == '-' && s[i + 1] == '-') {
      assert i == 2 || i == 6 || i == 11 || s[i] != '-';
    }
  }

  lemma {:induction false} FoldExample(low: string, fold: char -> string)
    requires low == "my new idea!"
    ensures FoldAccents(low, fold) == low
  {
    FoldAccentsKeeps(low, fold);
  }

  lemma {:induction false} TrimExample(s: string)
    requires s == "my-new-idea-"
    ensures TrimHyphens(s) == "my-new-idea"
  {
  }

  /** The example of the create handler's documentation. */
  lemma {:induction false} SlugifyExample(title: string, fold: char -> string)
    requires title == "My New Idea!"
    ensures Slugify(title, fold) == "my-new-idea"
  {
    LowerExample(title);
    var low := Lower(title);
    FoldExample(low, fold);
    SanitizeExample(low);
    var s := Sanitize(low);
    CollapseExample(s);
    TrimExample(s);
  }
}
