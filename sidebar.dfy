/** The pieces both side bars share (src/components/AdminLayout.tsx and
    src/components/TeacherLayout.tsx each define the same `SidebarLink` and the same avatar
    fallback): when a link is highlighted, and the initials shown in place of a picture. */
module Sidebar {
  import opened Strings

  /** `location.pathname === to || location.pathname.startsWith(to + "/")` */
  predicate IsActive(pathname: string, to: string)
  {
    pathname == to || StartsWith(pathname, to + "/")
  }

  /** A link is active exactly on its own path and on the paths below it; a path that merely
      shares its letters ("/adminx" for "/admin") is not below it. */
  lemma ActiveMeansBelow(pathname: string, to: string)
    ensures IsActive(pathname, to) <==>
      StartsWith(pathname, to) && (|pathname| == |to| || pathname[|to|] == '/')
  {
    if StartsWith(pathname, to) && |pathname| > |to| && pathname[|to|] == '/' {
      assert pathname[..|to| + 1] == pathname[..|to|] + [pathname[|to|]];
    }
    if StartsWith(pathname, to + "/") {
      assert pathname[..|to|] == pathname[..|to| + 1][..|to|];
    }
  }

  /** Two links active on the same path are the same link, or one sits below the other. */
  lemma ActivePrefixes(pathname: string, a: string, b: string)
    requires IsActive(pathname, a) && IsActive(pathname, b) && |a| <= |b|
    ensures b == a || StartsWith(b, a + "/")
  {
    ActiveMeansBelow(pathname, a);
    ActiveMeansBelow(pathname, b);
    assert b[..|a|] == pathname[..|b|][..|a|];
    if |a| < |b| {
      assert b[..|a| + 1] == pathname[..|a| + 1];
      assert pathname[..|a| + 1] == pathname[..|a|] + [pathname[|a|]];
    } else {
      assert b == b[..|a|];
    }
  }

  /** No link of a list sits below another: then at most one of them is active at a time. */
  predicate Unnested(links: seq<string>)
  {
    forall i, j | 0 <= i < |links| && 0 <= j < |links| && i != j :: links[i] != links[j] && !StartsWith(links[j], links[i] + "/")
  }

  /** Distinct one-segment paths ("/reports") never sit below one another. */
  lemma SingleSegmentsUnnested(links: seq<string>)
    requires forall i | 0 <= i < |links| :: |links[i]| >= 1 && '/' !in links[i][1..]
    requires forall i, j | 0 <= i < j < |links| :: links[i] != links[j]
    ensures Unnested(links)
  {
    forall i, j | 0 <= i < |links| && 0 <= j < |links| && i != j
      ensures links[i] != links[j] && !StartsWith(links[j], links[i] + "/")
    {
      var a, b := links[i], links[j];
      if |a| < |b| {
        assert b[1..][|a| - 1] == b[|a|];
      }
    }
  }

  lemma AtMostOneActive(links: seq<string>, pathname: string)
    requires Unnested(links)
    ensures forall i, j | 0 <= i < |links| && 0 <= j < |links| && IsActive(pathname, links[i]) && IsActive(pathname, links[j]) :: i == j
  {
    forall i, j | 0 <= i < |links| && 0 <= j < |links| && IsActive(pathname, links[i]) && IsActive(pathname, links[j])
      ensures i == j
    {
      if |links[i]| <= |links[j]| {
        ActivePrefixes(pathname, links[i], links[j]);
      } else {
        ActivePrefixes(pathname, links[j], links[i]);
      }
    }
  }

  /** `n[0]`, which `join` writes as "" when the word is empty. */
  function FirstLetter(word: string): (r: string)
    ensures |r| <= 1 && (r == "" <==> word == "") && (r != "" ==> r[0] == word[0])
  {
    if word == "" then "" else [word[0]]
  }

  /** `name.split(" ").map(n => n[0]).slice(0, 2).join("")` */
  function Initials(name: string): string
  {
    var words := SplitOn(name, ' ');
    FirstLetter(words[0]) + (if |words| > 1 then FirstLetter(words[1]) else "")
  }

  /** The initials are at most two letters of the name, none of them a space. */
  lemma InitialsFacts(name: string)
    ensures |Initials(name)| <= 2
    ensures forall c | c in Initials(name) :: c in name && c != ' '
  {
    var words := SplitOn(name, ' ');
    forall c | c in Initials(name) ensures c in name && c != ' ' {
      if c in FirstLetter(words[0]) {
        SplitPieceChars(name, ' ', 0, c);
      } else {
        SplitPieceChars(name, ' ', 1, c);
      }
    }
  }

  /** A name of a first word and a rest gets the first letters of the first two words. */
  lemma InitialsOfWords(first: string, rest: string)
    requires first != "" && ' ' !in first
    ensures Initials(first + " " + rest) == [first[0]] + FirstLetter(rest[..IndexOf(rest, ' ')])
  {
    SplitAfterWord(first, ' ', rest);
    SplitFirst(rest, ' ');
  }
}
