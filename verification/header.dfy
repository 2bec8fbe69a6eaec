/** The site header: whether it renders, the navigation links by role, the
    active-link test, the home link, and the avatar fallback initials. */
module Header {
  import opened Wrappers
  import opened Text
  import opened Types
  import opened Seqs

  datatype NavLink = NavLink(href: string, caption: string)

  /** `navLinks`: three teacher links in a fixed order, one student link. */
  function NavLinks(role: Role): (links: seq<NavLink>)
    ensures role == Teacher ==>
      && |links| == 3
      && links[0] == NavLink("/teacher/dashboard", "Dashboard")
      && links[1] == NavLink("/teacher/upload", "Upload Note")
      && links[2] == NavLink("/teacher/profile", "Profile")
    ensures role == Student ==> links == [NavLink("/dashboard", "Dashboard")]
  {
    match role
    case Teacher => [ NavLink("/teacher/dashboard", "Dashboard"),
                      NavLink("/teacher/upload", "Upload Note"),
                      NavLink("/teacher/profile", "Profile") ]
    case Student => [ NavLink("/dashboard", "Dashboard") ]
  }

  /** The brand link's target: the role's own dashboard, which is also its
      first navigation link. */
  function HomeHref(role: Role): (r: string)
    ensures role == Teacher ==> r == "/teacher/dashboard"
    ensures role == Student ==> r == "/dashboard"
    ensures r == NavLinks(role)[0].href
  {
    if role == Teacher then "/teacher/dashboard" else "/dashboard"
  }

  /** How JavaScript renders `part[0]` inside a template literal: the first
      character, or the text "undefined" for an empty part. */
  function FirstCharText(part: string): (r: string)
    ensures |part| > 0 ==> r == [part[0]]
    ensures |part| == 0 ==> r == "undefined"
  {
    if |part| > 0 then [part[0]] else "undefined"
  }

  /** `getInitials`, as written. `None` is the bare `undefined` the
      single-part branch yields for an empty name. */
  function GetInitials(name: string): (r: Option<string>)
    ensures var names := Split(name, ' ');
      |names| > 1 && |names[0]| > 0 && |names[|names| - 1]| > 0 ==>
        r == Some([names[0][0], names[|names| - 1][0]])
    ensures ' ' !in name && |name| > 0 ==> r == Some([name[0]])
    ensures name == "" ==> r.None?
    ensures var names := Split(name, ' ');
      |names| > 1 ==> r == Some(FirstCharText(names[0]) + FirstCharText(names[|names| - 1]))
    ensures var names := Split(name, ' ');
      |names| == 1 ==> names[0] == name && r == (if |name| > 0 then Some([name[0]]) else None)
  {
    var names := Split(name, ' ');
    SplitWithoutSeparator(name, ' ');
    JoinSplit(name, ' ');
    if |names| > 1 then
      var first := FirstCharText(names[0]);
      var last := FirstCharText(names[|names| - 1]);
      assert |names[0]| > 0 && |names[|names| - 1]| > 0 ==> first + last == [names[0][0], names[|names| - 1][0]];
      Some(first + last)
    else if |names[0]| > 0 then Some([names[0][0]])
    else None
  }

  /** A name with a trailing space — which registration accepts and stores
      untrimmed — gets the initials "Aundefined". */
  lemma TrailingSpaceInitials()
    ensures GetInitials("Alex ") == Some("Aundefined")
  {
    var s := "Alex ";
    assert s[4..] == " " && s[4..][1..] == "";
    assert Split(s[4..], ' ') == ["", ""];
    assert s[3..][1..] == s[4..];
    StepSplit(s[3..], 'x', ["", ""]);
    assert ['x'] + "" == "x" && s[2..][1..] == s[3..];
    StepSplit(s[2..], 'e', ["x", ""]);
    assert ['e'] + "x" == "ex" && s[1..][1..] == s[2..];
    StepSplit(s[1..], 'l', ["ex", ""]);
    assert ['l'] + "ex" == "lex";
    StepSplit(s, 'A', ["lex", ""]);
    assert ['A'] + "lex" == "Alex";
    assert FirstCharText("Alex") + FirstCharText("") == "Aundefined";
  }

  /** One step of `Split` on a two-part tail. */
  lemma StepSplit(s: string, c: char, tail: seq<string>)
    requires |s| > 0 && s[0] == c && c != ' ' && |tail| == 2
    requires Split(s[1..], ' ') == tail
    ensures Split(s, ' ') == [[c] + tail[0], tail[1]]
  {
    assert tail[1..] == [tail[1]];
  }

  /** Every character of a part comes from the split string. */
  lemma {:induction false} SplitPartChars(s: string, sep: char)
    ensures forall k, i :: 0 <= k < |Split(s, sep)| && 0 <= i < |Split(s, sep)[k]| ==> Split(s, sep)[k][i] in s
    decreases |s|
  {
    if |s| > 0 {
      SplitPartChars(s[1..], sep);
      var rest := Split(s[1..], sep);
      var parts := Split(s, sep);
      forall k, i | 0 <= k < |parts| && 0 <= i < |parts[k]| ensures parts[k][i] in s {
        if s[0] == sep {
          assert parts[k] == rest[k - 1];
          assert rest[k - 1][i] in s[1..];
        } else if k == 0 {
          if i > 0 { assert parts[0][i] == rest[0][i - 1]; assert rest[0][i - 1] in s[1..]; }
        } else {
          assert parts[k] == rest[k];
          assert rest[k][i] in s[1..];
        }
      }
    }
  }

  predicate NonEmpty(part: string) { |part| > 0 }

  /** The words of a name: its non-empty space-separated parts. */
  function Words(name: string): (w: seq<string>)
    ensures forall j :: 0 <= j < |w| ==> |w[j]| > 0 && ' ' !in w[j]
    ensures forall j, i :: 0 <= j < |w| && 0 <= i < |w[j]| ==> w[j][i] in name
  {
    var parts := Split(name, ' ');
    SplitPartChars(name, ' ');
    var w := Filter(parts, NonEmpty);
    assert forall j :: 0 <= j < |w| ==> w[j] in parts;
    w
  }

  /** The corrected initials: first letters of the first and last words,
      skipping the empty parts that extra spaces produce. */
  function GetInitialsCorrected(name: string): (r: string)
    ensures |r| <= 2
    ensures forall k :: 0 <= k < |r| ==> r[k] in name && r[k] != ' '
    ensures |Words(name)| > 1 ==> r == [Words(name)[0][0], Words(name)[|Words(name)| - 1][0]]
    ensures |Words(name)| == 1 ==> r == [Words(name)[0][0]]
  {
    var w := Words(name);
    if |w| > 1 then [w[0][0], w[|w| - 1][0]]
    else if |w| == 1 then [w[0][0]]
    else ""
  }

  /** Where the name has no empty part (no leading, trailing or doubled
      space, and not empty), the as-written initials are the corrected ones. */
  lemma CorrectedAgrees(name: string)
    requires forall k :: 0 <= k < |Split(name, ' ')| ==> |Split(name, ' ')[k]| > 0
    ensures GetInitials(name) == Some(GetInitialsCorrected(name))
  {
    FilterAll(Split(name, ' '), NonEmpty);
  }

  /** What the header shows when it renders. `active[k]` is whether link
      `k` gets the highlighted style. */
  datatype HeaderView = HeaderView(
    homeHref: string, links: seq<NavLink>, active: seq<bool>, initials: Option<string>)

  /** `Header()`: nothing while loading, when logged out, or on "/". */
  function RenderHeader(loading: bool, user: Option<User>, pathname: string): (r: Option<HeaderView>)
    ensures r.None? <==> loading || user.None? || pathname == "/"
    ensures r.Some? ==>
      && r.value.links == NavLinks(user.value.role)
      && |r.value.active| == |r.value.links|
      && (forall k :: 0 <= k < |r.value.links| ==> (r.value.active[k] <==> pathname == r.value.links[k].href))
      && r.value.homeHref == HomeHref(user.value.role)
      && r.value.initials == GetInitials(user.value.name)
  {
    if loading || user.None? || pathname == "/" then None
    else
      var links := NavLinks(user.value.role);
      Some(HeaderView(
        HomeHref(user.value.role),
        links,
        seq(|links|, k requires 0 <= k < |links| => pathname == links[k].href),
        GetInitials(user.value.name)))
  }

  /** At most one link is active, and the home link is the first link. */
  lemma ActiveLinkUnique(loading: bool, user: Option<User>, pathname: string)
    requires RenderHeader(loading, user, pathname).Some?
    ensures var h := RenderHeader(loading, user, pathname).value;
      && (forall i, j :: 0 <= i < j < |h.active| ==> !(h.active[i] && h.active[j]))
      && h.homeHref == h.links[0].href
  {
    var h := RenderHeader(loading, user, pathname).value;
    forall i, j | 0 <= i < j < |h.active| ensures !(h.active[i] && h.active[j]) {
      assert h.links[i].href != h.links[j].href by {
        assert h.links[i].href[|h.links[i].href| - 1] != h.links[j].href[|h.links[j].href| - 1]
            || |h.links[i].href| != |h.links[j].href|;
      }
    }
  }
}
