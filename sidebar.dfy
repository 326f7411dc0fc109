/** The navigation sidebar: which links are highlighted for the current path.
    Overview, Analytics and Fitness match the path exactly, a subject link
    matches every path that starts with its href, and Settings is never
    highlighted. */
module Navigation {
  import opened Common

  datatype SubjectLink = SubjectLink(name: string, href: string)

  const SubjectLinks: seq<SubjectLink> := [
    SubjectLink("Physics", "/subjects/physics"),
    SubjectLink("Math", "/subjects/math"),
    SubjectLink("Physical Chemistry", "/subjects/physical-chemistry"),
    SubjectLink("Inorganic Chemistry", "/subjects/inorganic-chemistry"),
    SubjectLink("Organic Chemistry", "/subjects/organic-chemistry")
  ]

  /** A link of the sidebar; `SubjectItem(k)` is the `k`-th subject link. */
  datatype NavItem = Overview | SubjectItem(k: nat) | Analytics | Fitness | Settings

  /** The links in the order the sidebar shows them. */
  const NavItems: seq<NavItem> := [
    Overview, SubjectItem(0), SubjectItem(1), SubjectItem(2), SubjectItem(3), SubjectItem(4),
    Analytics, Fitness, Settings
  ]

  /** The `active` class rule of each link. */
  predicate IsActive(item: NavItem, path: string)
  {
    match item
    case Overview => path == "/"
    case SubjectItem(k) => k < |SubjectLinks| && StartsWith(path, SubjectLinks[k].href)
    case Analytics => path == "/analytics"
    case Fitness => path == "/fitness"
    case Settings => false
  }

  /** Two strings that differ at a common index are not prefixes of each other. */
  lemma DifferAt(a: string, b: string, i: nat)
    requires i < |a| && i < |b| && a[i] != b[i]
    ensures !StartsWith(a, b) && !StartsWith(b, a)
  {
    if |b| <= |a| {
      assert a[..|b|][i] != b[i];
    }
    if |a| <= |b| {
      assert b[..|a|][i] != a[i];
    }
  }

  /** No subject href is a prefix of another one. */
  lemma HrefsPrefixFree()
    ensures forall j, k :: 0 <= j < |SubjectLinks| && 0 <= k < |SubjectLinks| && j != k ==>
      !StartsWith(SubjectLinks[j].href, SubjectLinks[k].href)
  {
    forall j, k | 0 <= j < |SubjectLinks| && 0 <= k < |SubjectLinks| && j != k
      ensures !StartsWith(SubjectLinks[j].href, SubjectLinks[k].href)
    {
      var a, b := SubjectLinks[j].href, SubjectLinks[k].href;
      if (j == 0 && k == 2) || (j == 2 && k == 0) {
        DifferAt(a, b, 16);
      } else {
        DifferAt(a, b, 10);
      }
    }
  }

  /** Two prefixes of one string: the shorter is a prefix of the longer. */
  lemma PrefixesOfSame(s: string, a: string, b: string)
    requires StartsWith(s, a) && StartsWith(s, b) && |a| <= |b|
    ensures StartsWith(b, a)
  {
    assert b[..|a|] == s[..|b|][..|a|];
  }

  /** Every subject href is longer than "/analytics" and begins with
      "/subjects/". */
  lemma HrefShape(k: nat)
    requires k < |SubjectLinks|
    ensures |SubjectLinks[k].href| > 10
    ensures SubjectLinks[k].href[..10] == "/subjects/"
  {
  }

  /** At most one link is highlighted for any path: two highlighted links are
      the same link. */
  lemma {:induction false} OnlyOneActive(path: string, a: NavItem, b: NavItem)
    requires IsActive(a, path) && IsActive(b, path)
    ensures a == b
  {
    if a.SubjectItem? {
      HrefShape(a.k);
    }
    if b.SubjectItem? {
      HrefShape(b.k);
    }
    if a.SubjectItem? && b.SubjectItem? {
      HrefsPrefixFree();
      var ha, hb := SubjectLinks[a.k].href, SubjectLinks[b.k].href;
      if |ha| <= |hb| {
        PrefixesOfSame(path, ha, hb);
      } else {
        PrefixesOfSame(path, hb, ha);
      }
    }
  }

  /** The highlighted links for a path. */
  function ActiveItems(path: string): (r: set<NavItem>)
    ensures forall it :: it in r <==> it in NavItems && IsActive(it, path)
    ensures |r| <= 1
  {
    var r := set it | it in NavItems && IsActive(it, path);
    if r != {} then
      var x :| x in r;
      forall y | y in r ensures y == x {
        OnlyOneActive(path, x, y);
      }
      assert r == {x};
      r
    else r
  }

  /** Each link of the sidebar is highlighted by its own rule: Overview,
      Analytics and Fitness on an exact match, a subject link on a prefix
      match, and Settings never. */
  lemma HighlightRules(path: string)
    ensures Overview in ActiveItems(path) <==> path == "/"
    ensures Analytics in ActiveItems(path) <==> path == "/analytics"
    ensures Fitness in ActiveItems(path) <==> path == "/fitness"
    ensures Settings !in ActiveItems(path)
    ensures forall k :: 0 <= k < |SubjectLinks| ==>
              (SubjectItem(k) in ActiveItems(path) <==> StartsWith(path, SubjectLinks[k].href))
  {
    assert Overview == NavItems[0] && Analytics == NavItems[6] && Fitness == NavItems[7];
    forall k | 0 <= k < |SubjectLinks|
      ensures SubjectItem(k) in NavItems
    {
      assert SubjectItem(k) == NavItems[k + 1];
    }
  }

  /** On "/" only Overview is highlighted. */
  lemma HomeHighlightsOverview()
    ensures ActiveItems("/") == {Overview}
  {
    assert Overview in ActiveItems("/");
  }

  /** Every page under a subject's href highlights that subject's link and no
      other. */
  lemma SubjectPageHighlightsItsLink(k: nat, rest: string)
    requires k < |SubjectLinks|
    ensures ActiveItems(SubjectLinks[k].href + rest) == {SubjectItem(k)}
  {
    var path := SubjectLinks[k].href + rest;
    assert path[..|SubjectLinks[k].href|] == SubjectLinks[k].href;
    assert SubjectItem(k) in NavItems;
    var r := ActiveItems(path);
    assert SubjectItem(k) in r;
    forall y | y in r ensures y == SubjectItem(k) {
      OnlyOneActive(path, SubjectItem(k), y);
    }
  }
}
