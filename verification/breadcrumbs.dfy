/**
 * The breadcrumb trail: the items given by a page, or else a trail generated from the
 * pathname — 'Inicio' at '/', then one item per path segment whose path is the pathname up
 * to that segment and whose label capitalises the segment's dash-separated words.
 */
module Breadcrumbs {

  import opened Wrappers
  import opened Strings
  import opened Lists

  datatype Item = Item(caption: string, path: Option<string>)

  /** `pathname.split('/').filter(Boolean)`: the non-empty segments. */
  function Segments(pathname: string): (segs: seq<string>)
    ensures forall k | 0 <= k < |segs| :: segs[k] != [] && '/' !in segs[k]
  {
    var parts := Split(pathname, '/');
    var segs := Filter(parts, (p: string) => p != []);
    assert forall k | 0 <= k < |segs| :: segs[k] in segs && segs[k] in parts;
    segs
  }

  /** `word.charAt(0).toUpperCase() + word.slice(1)`, with ASCII case mapping. */
  function Capitalize(w: string): (r: string)
    ensures |r| == |w| && (w != [] ==> r[0] == UpperChar(w[0]) && r[1..] == w[1..])
  {
    if w == [] then [] else [UpperChar(w[0])] + w[1..]
  }

  function CapitalizeAll(words: seq<string>): (r: seq<string>)
    ensures |r| == |words| && forall k | 0 <= k < |words| :: r[k] == Capitalize(words[k])
  {
    seq(|words|, k requires 0 <= k < |words| => Capitalize(words[k]))
  }

  /** The label of a segment: its '-'-separated words capitalised and joined by spaces. */
  function SegmentLabel(segment: string): (r: string)
    ensures |r| == |segment| && forall i | 0 <= i < |segment| :: r[i] == LabelChar(segment, i, true)
  {
    var words := Split(segment, '-');
    assert CapitalizeAll(words) == [Capitalize(words[0])] + CapitalizeAll(words[1..]);
    LabelChars(segment, true);
    Join(CapitalizeAll(words), " ")
  }

  /**
   * The label character by character: a dash becomes a space, a character that opens a word
   * (after a dash, or at the start when `first`) is upper-cased, the rest are kept.
   */
  function LabelChar(s: string, i: nat, first: bool): char
    requires i < |s|
  {
    if s[i] == '-' then ' '
    else if (i == 0 && first) || (i > 0 && s[i - 1] == '-') then UpperChar(s[i])
    else s[i]
  }

  /** The words joined by spaces, all capitalised but the first, which is capitalised when `first`. */
  function WordsLabel(words: seq<string>, first: bool): string
    requires |words| >= 1
  {
    Join([if first then Capitalize(words[0]) else words[0]] + CapitalizeAll(words[1..]), " ")
  }

  lemma {:induction false} LabelChars(s: string, first: bool)
    ensures var r := WordsLabel(Split(s, '-'), first);
      |r| == |s| && forall i | 0 <= i < |s| :: r[i] == LabelChar(s, i, first)
    decreases |s|
  {
    if s != [] {
      var rest := Split(s[1..], '-');
      LabelChars(s[1..], s[0] == '-');
      var tail := WordsLabel(rest, s[0] == '-');
      var r := WordsLabel(Split(s, '-'), first);
      if s[0] == '-' {
        assert Split(s, '-') == [[]] + rest;
        assert CapitalizeAll(rest) == [Capitalize(rest[0])] + CapitalizeAll(rest[1..]);
        JoinEmptyHead(CapitalizeAll(rest), " ");
        assert r == " " + tail;
      } else {
        var w := [s[0]] + rest[0];
        assert Split(s, '-') == [w] + rest[1..];
        var x := if first then UpperChar(s[0]) else s[0];
        assert (if first then Capitalize(w) else w) == [x] + rest[0];
        JoinConsChar(x, rest[0], CapitalizeAll(rest[1..]), " ");
        assert r == [x] + tail;
      }
      forall i | 0 <= i < |s| ensures r[i] == LabelChar(s, i, first) {
        if i > 0 {
          assert r[i] == tail[i - 1] == LabelChar(s[1..], i - 1, s[0] == '-');
        }
      }
    }
  }

  lemma JoinEmptyHead(ws: seq<string>, sep: string)
    requires |ws| >= 1
    ensures Join([[]] + ws, sep) == sep + Join(ws, sep)
  {
    assert ([[]] + ws)[1..] == ws;
  }

  lemma JoinConsChar(x: char, w: string, ws: seq<string>, sep: string)
    ensures Join([[x] + w] + ws, sep) == [x] + Join([w] + ws, sep)
  {
    assert ([[x] + w] + ws)[1..] == ws == ([w] + ws)[1..];
  }

  /**
   * The generated items after the first: each segment with the path accumulated so far
   * (`currentPath += '/' + segment`), starting from `current`.
   */
  function Trail(segs: seq<string>, current: string): (items: seq<Item>)
    ensures |items| == |segs|
    ensures forall k | 0 <= k < |segs| :: items[k].caption == SegmentLabel(segs[k])
    ensures forall k | 0 <= k < |segs| :: items[k].path == Some(current + PathOf(segs[..k + 1]))
    decreases |segs|
  {
    if segs == [] then []
    else
      var head := current + "/" + segs[0];
      var rest := Trail(segs[1..], head);
      TrailPaths(segs, current, rest);
      [Item(SegmentLabel(segs[0]), Some(head))] + rest
  }

  /** Putting the first segment's item before the rest of the trail keeps every path accumulated. */
  lemma TrailPaths(segs: seq<string>, current: string, rest: seq<Item>)
    requires segs != [] && |rest| == |segs| - 1
    requires forall k | 0 <= k < |rest| :: rest[k].path == Some(current + "/" + segs[0] + PathOf(segs[1..][..k + 1]))
    ensures var items := [Item(SegmentLabel(segs[0]), Some(current + "/" + segs[0]))] + rest;
      forall k | 0 <= k < |segs| :: items[k].path == Some(current + PathOf(segs[..k + 1]))
  {
    var head := current + "/" + segs[0];
    var items := [Item(SegmentLabel(segs[0]), Some(head))] + rest;
    forall k | 0 <= k < |segs| ensures items[k].path == Some(current + PathOf(segs[..k + 1])) {
      PathStep(segs, current, k);
      if k > 0 {
        assert items[k] == rest[k - 1];
        assert rest[k - 1].path == Some(head + PathOf(segs[1..][..k]));
      } else {
        assert segs[1..][..0] == [];
        assert head + PathOf([]) == head;
      }
    }
  }

  /** The path after `k + 1` segments is the first segment's path followed by the next `k`. */
  lemma PathStep(segs: seq<string>, current: string, k: nat)
    requires k < |segs|
    ensures current + PathOf(segs[..k + 1]) == current + "/" + segs[0] + PathOf(segs[1..][..k])
  {
    assert segs[..k + 1][1..] == segs[1..][..k];
    var x := PathOf(segs[1..][..k]);
    assert PathOf(segs[..k + 1]) == "/" + segs[0] + x;
    assert current + ("/" + segs[0] + x) == current + "/" + segs[0] + x;
  }

  /** '/' followed by each segment in turn. */
  function PathOf(segs: seq<string>): (p: string)
    ensures |p| >= |segs|
    decreases |segs|
  {
    if segs == [] then [] else "/" + segs[0] + PathOf(segs[1..])
  }

  /** Adding a segment adds '/' and the segment at the end of the path. */
  lemma {:induction false} PathOfSnoc(segs: seq<string>, x: string)
    ensures PathOf(segs + [x]) == PathOf(segs) + "/" + x
    decreases |segs|
  {
    if segs == [] {
      assert PathOf([x]) == "/" + x + PathOf([]);
    } else {
      assert (segs + [x])[1..] == segs[1..] + [x];
      PathOfSnoc(segs[1..], x);
    }
  }

  lemma PrefixPathExtends(segs: seq<string>, k: nat)
    requires k < |segs|
    ensures PathOf(segs[..k + 1]) == PathOf(segs[..k]) + "/" + segs[k]
  {
    assert segs[..k + 1] == segs[..k] + [segs[k]];
    PathOfSnoc(segs[..k], segs[k]);
  }

  /** `breadcrumbItems`: the given items verbatim, or 'Inicio' at '/' followed by the generated trail. */
  function BreadcrumbItems(items: Option<seq<Item>>, pathname: string): (r: seq<Item>)
    ensures items.Some? ==> r == items.value
    ensures items.None? ==> |r| == 1 + |Segments(pathname)| && r[0] == Item("Inicio", Some("/"))
    ensures items.None? ==> forall k | 1 <= k < |r| ::
      r[k].caption == SegmentLabel(Segments(pathname)[k - 1]) &&
      r[k].path == Some(PathOf(Segments(pathname)[..k]))
  {
    if items.Some? then items.value
    else
      var segs := Segments(pathname);
      var trail := Trail(segs, "");
      var r := [Item("Inicio", Some("/"))] + trail;
      forall k | 1 <= k < |r| ensures r[k].path == Some(PathOf(segs[..k])) {
        assert r[k] == trail[k - 1];
        assert "" + PathOf(segs[..k]) == PathOf(segs[..k]);
      }
      r
  }

  /** Each generated path extends the previous one by '/' and the next segment. */
  lemma GeneratedPathsExtend(pathname: string, k: nat)
    requires 1 <= k < |BreadcrumbItems(None, pathname)| - 1
    ensures var r := BreadcrumbItems(None, pathname);
      r[k + 1].path.value == r[k].path.value + "/" + Segments(pathname)[k]
  {
    var segs := Segments(pathname);
    var r := BreadcrumbItems(None, pathname);
    PrefixPathExtends(segs, k);
    assert r[k].path.value == PathOf(segs[..k]);
    assert r[k + 1].path.value == PathOf(segs[..k + 1]);
  }

  /** The last item and any item without a (non-empty) path are plain text; all others are links. */
  predicate IsLink(items: seq<Item>, index: nat)
    requires index < |items|
  {
    index != |items| - 1 && items[index].path.Some? && items[index].path.value != []
  }

  /** In a generated trail every item but the last is a link. */
  lemma GeneratedAllLinksButLast(pathname: string, index: nat)
    requires index < |BreadcrumbItems(None, pathname)|
    ensures IsLink(BreadcrumbItems(None, pathname), index) <==> index != |BreadcrumbItems(None, pathname)| - 1
  {
    var r := BreadcrumbItems(None, pathname);
    if index >= 1 {
      assert |PathOf(Segments(pathname)[..index])| >= index;
    }
  }
}
