/**
 * The navigation bar: the user's initials, the active-incident badge and
 * which navigation item is highlighted.
 */
module Navbar {
  import opened Wrappers
  import opened JsText
  import Seqs
  import Store

  /** The first character of each non-empty word, in order: `n[0]` of an empty word is undefined and joins as nothing. */
  function FirstChars(words: seq<string>): (r: string)
    ensures |r| <= |words|
  {
    if words == [] then ""
    else (if words[0] == "" then "" else [words[0][0]]) + FirstChars(words[1..])
  }

  /**
   * The reference reading of initials: the characters of `s` that are not
   * spaces and stand at the start or right after a space. `atStart` says
   * whether the previous character was a space (or there was none).
   */
  function WordStartsFrom(s: string, atStart: bool): string
  {
    if s == [] then ""
    else (if atStart && s[0] != ' ' then [s[0]] else "") + WordStartsFrom(s[1..], s[0] == ' ')
  }

  function WordStarts(s: string): string
  {
    WordStartsFrom(s, true)
  }

  /** `getInitials(name)`: 'U' for a missing or empty name, else the upper-cased word initials, at most two. */
  function GetInitials(name: Option<string>): (r: string)
    ensures name.None? || name == Some("") ==> r == "U"
    ensures name.Some? && name.value != "" ==>
      |r| == (if |WordStarts(name.value)| < 2 then |WordStarts(name.value)| else 2) &&
      r == Upper(WordStarts(name.value))[..|r|]
  {
    if name.None? || name.value == "" then "U"
    else
      InitialsAreWordStarts(name.value);
      var all := Upper(FirstChars(Split(name.value, ' ')));
      if |all| <= 2 then all else all[..2]
  }

  /** Word starts of a concatenation: the second part continues with the flag the first part leaves. */
  lemma {:induction false} StartsConcat(a: string, b: string, flag: bool)
    ensures WordStartsFrom(a + b, flag) == WordStartsFrom(a, flag) + WordStartsFrom(b, if a == [] then flag else a[|a| - 1] == ' ')
    decreases |a|
  {
    if a != [] {
      var head: string := if flag && a[0] != ' ' then [a[0]] else "";
      Seqs.TailOfConcat(a, b);
      StartsConcat(a[1..], b, a[0] == ' ');
      if |a| > 1 {
        assert a[1..][|a| - 2] == a[|a| - 1];
      }
      assert WordStartsFrom(a + b, flag) == head + WordStartsFrom(a[1..] + b, a[0] == ' ');
      assert WordStartsFrom(a, flag) == head + WordStartsFrom(a[1..], a[0] == ' ');
    } else {
      assert a + b == b;
    }
  }

  /** A string without spaces has no word start after its first character. */
  lemma {:induction false} NoSpaceNoStarts(s: string)
    requires ' ' !in s
    ensures WordStartsFrom(s, false) == ""
    decreases |s|
  {
    if s != [] {
      NoSpaceNoStarts(s[1..]);
    }
  }

  /** A single word's only start is its first character. */
  lemma SingleWordStarts(a: string)
    requires ' ' !in a
    ensures WordStartsFrom(a, true) == FirstChars([a])
  {
    if a != [] {
      NoSpaceNoStarts(a[1..]);
    }
  }

  lemma {:induction false} FirstCharsConcat(ws: seq<string>, vs: seq<string>)
    ensures FirstChars(ws + vs) == FirstChars(ws) + FirstChars(vs)
    decreases |ws|
  {
    if ws != [] {
      assert (ws + vs)[1..] == ws[1..] + vs;
      FirstCharsConcat(ws[1..], vs);
    } else {
      assert ws + vs == vs;
    }
  }

  /** Initials taken from the pieces of `split(' ')` are exactly the word starts of the name. */
  lemma {:induction false} InitialsAreWordStarts(s: string)
    ensures FirstChars(Split(s, ' ')) == WordStarts(s)
    decreases |s|
  {
    if ' ' !in s {
      SingleWordStarts(s);
    } else {
      var i := IndexOf(s, ' ');
      var a, b := s[..i], s[i + 1..];
      InitialsAreWordStarts(b);
      WordThenRest(a, b);
      assert s == a + [' '] + b;
      FirstCharsConcat([a], Split(b, ' '));
    }
  }

  /** Word starts of `a + " " + b` for a word `a`: the initial of `a`, then the starts of `b`. */
  lemma WordThenRest(a: string, b: string)
    requires ' ' !in a
    ensures WordStarts(a + [' '] + b) == FirstChars([a]) + WordStarts(b)
  {
    StartsConcat(a, [' '] + b, true);
    assert a + [' '] + b == a + ([' '] + b);
    SingleWordStarts(a);
    assert ([' '] + b)[1..] == b;
  }

  /** Doubling a space leaves the word starts as they are. */
  lemma DoubleSpaceStarts(a: string, b: string)
    ensures WordStarts(a + "  " + b) == WordStarts(a + " " + b)
  {
    StartsConcat(a, "  " + b, true);
    StartsConcat(a, " " + b, true);
    assert ("  " + b)[1..] == " " + b;
    assert (" " + b)[1..] == b;
    assert a + "  " + b == a + ("  " + b);
    assert a + " " + b == a + (" " + b);
  }

  /** A run of spaces counts as one separator: doubling a space does not change the initials. */
  lemma RepeatedSpaceAddsNothing(a: string, b: string)
    ensures GetInitials(Some(a + "  " + b)) == GetInitials(Some(a + " " + b))
  {
    DoubleSpaceStarts(a, b);
    InitialsAreWordStarts(a + "  " + b);
    InitialsAreWordStarts(a + " " + b);
  }

  /** `incidents.filter(incident => !incident.resolved)`. */
  function ActiveIncidents(xs: seq<Store.Incident>): (r: seq<Store.Incident>)
    ensures |r| == Seqs.CountIf(xs, Store.IsUnresolved())
    ensures Seqs.IsSubseq(r, xs)
    ensures forall i :: 0 <= i < |r| ==> !r[i].resolved
  {
    Seqs.FilterLength(xs, Store.IsUnresolved());
    Seqs.FilterIsSubseq(xs, Store.IsUnresolved());
    Seqs.Filter(xs, Store.IsUnresolved())
  }

  /** A navigation entry: its route and caption. */
  datatype NavItem = NavItem(path: string, caption: string)

  const NavigationItems: seq<NavItem> := [
    NavItem("/", "Dashboard"),
    NavItem("/cameras", "Cameras"),
    NavItem("/incidents", "Incidents"),
    NavItem("/analytics", "Analytics")
  ]

  /** `pathname === item.path`. */
  predicate IsActive(pathname: string, item: NavItem)
  {
    pathname == item.path
  }

  /** The items highlighted for a pathname: exactly one for a known route, none otherwise. */
  function ActiveItems(pathname: string): (r: seq<NavItem>)
    ensures forall i :: 0 <= i < |r| ==> r[i] in NavigationItems && r[i].path == pathname
    ensures |r| <= 1
    ensures (exists i :: 0 <= i < |NavigationItems| && NavigationItems[i].path == pathname) <==> |r| == 1
  {
    var r := ActiveFrom(NavigationItems, pathname);
    assert forall i :: 0 <= i < |r| ==> r[i] in NavigationItems;
    r
  }

  function ActiveFrom(items: seq<NavItem>, pathname: string): (r: seq<NavItem>)
    ensures |r| <= |items|
    ensures forall i :: 0 <= i < |r| ==> r[i] in items && r[i].path == pathname
    ensures |r| == 0 <==> forall i :: 0 <= i < |items| ==> items[i].path != pathname
  {
    if items == [] then []
    else
      var rest := ActiveFrom(items[1..], pathname);
      assert forall i :: 1 <= i < |items| ==> items[i] == items[1..][i - 1];
      (if IsActive(pathname, items[0]) then [items[0]] else []) + rest
  }

  /** The badge beside the 'Incidents' item, with the number of active incidents when there are any. */
  function IncidentBadge(item: NavItem, xs: seq<Store.Incident>): (r: Option<nat>)
    ensures r.Some? <==> item.caption == "Incidents" && exists i :: 0 <= i < |xs| && !xs[i].resolved
    ensures r.Some? ==> r.value == |ActiveIncidents(xs)| && 0 < r.value
  {
    var n := |ActiveIncidents(xs)|;
    Seqs.CountZero(xs, Store.IsUnresolved());
    if item.caption == "Incidents" && n > 0 then Some(n) else None
  }

  /** The mobile badge: the number of active incidents, shown only when there are some. */
  function MobileBadge(xs: seq<Store.Incident>): (r: Option<nat>)
    ensures r.Some? <==> exists i :: 0 <= i < |xs| && !xs[i].resolved
    ensures r.Some? ==> r.value == |ActiveIncidents(xs)|
  {
    var n := |ActiveIncidents(xs)|;
    Seqs.CountZero(xs, Store.IsUnresolved());
    if n > 0 then Some(n) else None
  }
}
