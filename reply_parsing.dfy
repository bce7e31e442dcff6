/** The list parser shared by `generate_learning_objectives`,
    `generate_prerequisites` and `generate_learning_methods`
    (ai_helpers.py): a reply is cut into lines, the numbered or bulleted
    lines become items with their marker removed, and a reply without such
    a line becomes a single item. */
module ReplyParsing {
  import opened PyStr

  /** The characters `lstrip` removes from the front of a kept line. */
  const ListMarkers: string := "0123456789.- "

  /** A stripped line is kept when it starts with a digit or with "- ". */
  predicate IsListLine(line: string) {
    line != [] && (IsAsciiDigit(line[0]) || (|line| >= 2 && line[..2] == "- "))
  }

  /** The item a kept line becomes. */
  function ItemOf(line: string): string {
    LStripChars(line, ListMarkers)
  }

  /** A line of the reply is kept when its stripped form is a list line. */
  predicate Kept(line: string) {
    IsListLine(Strip(line))
  }

  /** What one line of the reply contributes: its item, or nothing. */
  function LineItems(line: string): (r: seq<string>)
    ensures |r| <= 1
  {
    var l := Strip(line);
    if IsListLine(l) then [ItemOf(l)] else []
  }

  /** The concatenation of a sequence of sequences. */
  function Flatten<T>(xss: seq<seq<T>>): (r: seq<T>)
  {
    if xss == [] then [] else Flatten(xss[..|xss| - 1]) + xss[|xss| - 1]
  }

  /** What each line contributes, line by line. */
  function Contributions(lines: seq<string>): (cs: seq<seq<string>>)
    ensures |cs| == |lines|
    ensures forall j :: 0 <= j < |lines| ==> cs[j] == LineItems(lines[j])
  {
    seq(|lines|, j requires 0 <= j < |lines| => LineItems(lines[j]))
  }

  /** The items of the kept lines, in line order. */
  function Extract(lines: seq<string>): (items: seq<string>)
  {
    Flatten(Contributions(lines))
  }

  /** What the parser returns for a reply (already stripped by the caller). */
  function ParsedItems(reply: string): (items: seq<string>)
    ensures |items| >= 1
  {
    var e := Extract(Split(reply, '\n'));
    if e == [] then [reply] else e
  }

  /** The loop of ai_helpers.py:221-231 (repeated at 293-303 and 364-374)
      over the lines of a reply. */
  method ExtractItems(lines: seq<string>) returns (items: seq<string>)
    ensures items == Extract(lines)
  {
    items := [];
    var i := 0;
    while i < |lines|
      invariant 0 <= i <= |lines|
      invariant items == Flatten(Contributions(lines[..i]))
    {
      var line := Strip(lines[i]);
      if IsListLine(line) {
        items := items + [ItemOf(line)];
      }
      assert Contributions(lines[..i + 1])[..i] == Contributions(lines[..i]);
      i := i + 1;
    }
    assert lines[..|lines|] == lines;
  }

  /** The parser with its fallback to the whole reply (ai_helpers.py:220-235). */
  method ParseReplyList(reply: string) returns (items: seq<string>)
    ensures items == ParsedItems(reply)
  {
    var lines := Split(reply, '\n');
    items := ExtractItems(lines);
    if items == [] {
      items := [reply];
    }
  }

  /** The indices of the non-empty members of `xss`, in increasing order. */
  function NonEmptyIndices<T>(xss: seq<seq<T>>): (idx: seq<int>)
    ensures |idx| <= |xss|
    ensures forall k :: 0 <= k < |idx| ==> 0 <= idx[k] < |xss| && xss[idx[k]] != []
  {
    if xss == [] then []
    else NonEmptyIndices(xss[..|xss| - 1]) + (if xss[|xss| - 1] != [] then [|xss| - 1] else [])
  }

  /** `NonEmptyIndices` lists exactly the non-empty members, each once, in order. */
  lemma {:induction false} NonEmptyIndicesExact<T>(xss: seq<seq<T>>)
    ensures forall k, l :: 0 <= k < l < |NonEmptyIndices(xss)| ==> NonEmptyIndices(xss)[k] < NonEmptyIndices(xss)[l]
    ensures forall j :: 0 <= j < |xss| && xss[j] != [] ==> j in NonEmptyIndices(xss)
  {
    if xss != [] {
      var init := xss[..|xss| - 1];
      NonEmptyIndicesExact(init);
      assert forall j :: 0 <= j < |init| ==> init[j] == xss[j];
    }
  }

  /** Flattening members of length at most one keeps the k-th non-empty
      member's element at position k. */
  lemma {:induction false} FlattenSingletons<T>(xss: seq<seq<T>>)
    requires forall j :: 0 <= j < |xss| ==> |xss[j]| <= 1
    ensures |Flatten(xss)| == |NonEmptyIndices(xss)|
    ensures forall k :: 0 <= k < |NonEmptyIndices(xss)| ==>
              Flatten(xss)[k] == xss[NonEmptyIndices(xss)[k]][0]
  {
    if xss != [] {
      var init := xss[..|xss| - 1];
      assert forall j :: 0 <= j < |init| ==> init[j] == xss[j];
      FlattenSingletons(init);
    }
  }

  /** Flattening gives nothing exactly when every member is empty. */
  lemma {:induction false} FlattenEmptyIff<T>(xss: seq<seq<T>>)
    ensures Flatten(xss) == [] <==> forall j :: 0 <= j < |xss| ==> xss[j] == []
  {
    if xss != [] {
      var init := xss[..|xss| - 1];
      FlattenEmptyIff(init);
      assert forall j :: 0 <= j < |init| ==> init[j] == xss[j];
    }
  }

  /** Each extracted item comes from one line, so there are never more items than lines. */
  lemma ExtractLength(lines: seq<string>)
    ensures |Extract(lines)| <= |lines|
  {
    FlattenSingletons(Contributions(lines));
  }

  /** No item begins with a digit, a dot, a dash or a space. */
  lemma ItemsHaveNoMarker(lines: seq<string>)
    ensures forall k :: 0 <= k < |Extract(lines)| ==>
              Extract(lines)[k] == [] || Extract(lines)[k][0] !in ListMarkers
  {
    var cs := Contributions(lines);
    FlattenSingletons(cs);
    forall k | 0 <= k < |Extract(lines)|
      ensures Extract(lines)[k] == [] || Extract(lines)[k][0] !in ListMarkers
    {
      var j := NonEmptyIndices(cs)[k];
      var l := Strip(lines[j]);
      assert cs[j] == LineItems(lines[j]) == [ItemOf(l)];
      assert Extract(lines)[k] == LStripChars(l, ListMarkers);
      LStripCharsSpec(l, ListMarkers);
    }
  }

  /** The indices of the kept lines, in increasing order. */
  function KeptIndices(lines: seq<string>): seq<int> {
    NonEmptyIndices(Contributions(lines))
  }

  /** `KeptIndices` lists exactly the kept lines, each once, in order, and
      the k-th extracted item is the item of the k-th kept line. */
  lemma ExtractCorrespondence(lines: seq<string>)
    ensures forall k :: 0 <= k < |KeptIndices(lines)| ==>
              0 <= KeptIndices(lines)[k] < |lines| && Kept(lines[KeptIndices(lines)[k]])
    ensures forall k, l :: 0 <= k < l < |KeptIndices(lines)| ==> KeptIndices(lines)[k] < KeptIndices(lines)[l]
    ensures forall j :: 0 <= j < |lines| && Kept(lines[j]) ==> j in KeptIndices(lines)
    ensures |Extract(lines)| == |KeptIndices(lines)|
    ensures forall k :: 0 <= k < |KeptIndices(lines)| ==>
              0 <= KeptIndices(lines)[k] < |lines| &&
              Extract(lines)[k] == ItemOf(Strip(lines[KeptIndices(lines)[k]]))
  {
    var cs := Contributions(lines);
    NonEmptyIndicesExact(cs);
    FlattenSingletons(cs);
  }

  /** No line of `lines` is kept. */
  ghost predicate NoKeptLine(lines: seq<string>) {
    forall j :: 0 <= j < |lines| ==> !Kept(lines[j])
  }

  /** No item is extracted exactly when no line is kept. */
  lemma ExtractEmptyIff(lines: seq<string>)
    ensures Extract(lines) == [] <==> NoKeptLine(lines)
  {
    FlattenEmptyIff(Contributions(lines));
  }

  /** A reply without a numbered or bulleted line is returned whole, as one
      item; a reply with one is returned as its extracted items. */
  lemma WholeReplyWhenNoListLine(reply: string)
    ensures NoKeptLine(Split(reply, '\n')) ==> ParsedItems(reply) == [reply]
    ensures !NoKeptLine(Split(reply, '\n')) ==> ParsedItems(reply) == Extract(Split(reply, '\n')) != []
  {
    ExtractEmptyIff(Split(reply, '\n'));
  }

  /** `ItemOf` removes a three-character marker in front of an item that does not
      itself begin with a marker character. */
  lemma ItemAfterMarker(m: string, a: string)
    requires |m| == 3 && forall k :: 0 <= k < 3 ==> m[k] in ListMarkers
    requires a != [] && a[0] !in ListMarkers
    ensures ItemOf(m + a) == a
  {
    var l := m + a;
    assert l[3] == a[0];
    assert SkipChars(l, ListMarkers, 3) == 3;
    assert SkipChars(l, ListMarkers, 2) == 3;
    assert SkipChars(l, ListMarkers, 1) == 3;
    assert SkipChars(l, ListMarkers, 0) == 3;
    assert l[3..] == a;
  }

  /** An item text the parser hands back unchanged once a marker is removed:
      it is non-empty, does not begin with a marker character, does not end
      with whitespace and holds no line break. */
  predicate PlainItem(a: string) {
    a != [] && a[0] !in ListMarkers && !IsSpace(a[|a| - 1]) && '\n' !in a
  }

  /** A three-character list marker such as "1. ", "2. " or "-  ". */
  predicate Marker(m: string) {
    && |m| == 3
    && (forall k :: 0 <= k < 3 ==> m[k] in ListMarkers)
    && (IsAsciiDigit(m[0]) || m[..2] == "- ")
  }

  /** A line made of a list marker and an item contributes exactly that item. */
  lemma MarkedLineItems(m: string, a: string)
    requires Marker(m) && PlainItem(a)
    ensures LineItems(m + a) == [a]
  {
    var l := m + a;
    assert l[0] == m[0] && l[|l| - 1] == a[|a| - 1];
    StripKeeps(l);
    assert l[..2] == m[..2];
    assert IsListLine(l);
    ItemAfterMarker(m, a);
  }

  /** The flattening of two singletons. */
  lemma FlattenPair<T>(x: T, y: T)
    ensures Flatten([[x], [y]]) == [x, y]
  {
    var xs: seq<seq<T>> := [[x]];
    assert xs[..0] == [];
    assert Flatten(xs) == [x];
    assert [[x], [y]][..1] == xs;
  }

  /** Two lines without a line break, joined by one, split back into the two. */
  lemma SplitTwoLines(la: string, lb: string)
    requires '\n' !in la && '\n' !in lb
    ensures Split(la + "\n" + lb, '\n') == [la, lb]
  {
    assert la + "\n" + lb == la + ['\n'] + lb;
    SplitAtFirst(la, '\n', lb);
    SplitNoSep(lb, '\n');
  }

  /** Two marked lines, such as "1. Foo\n2. Bar" or "1. Foo\n-  Bar": both
      become items, stripped of their markers, in order. */
  lemma MarkedTwoLineReply(ma: string, a: string, mb: string, b: string)
    requires Marker(ma) && Marker(mb) && PlainItem(a) && PlainItem(b)
    ensures ParsedItems(ma + a + "\n" + mb + b) == [a, b]
  {
    var la := ma + a;
    var lb := mb + b;
    assert ma + a + "\n" + mb + b == la + "\n" + lb;
    MarkedLineItems(ma, a);
    MarkedLineItems(mb, b);
    MarkedLineUnbroken(ma, a);
    MarkedLineUnbroken(mb, b);
    TwoLineReply(la, lb, a, b);
  }

  lemma MarkedLineUnbroken(m: string, a: string)
    requires Marker(m) && PlainItem(a)
    ensures '\n' !in m + a
  {
    assert '\n' !in m;
  }

  lemma TwoLineReply(la: string, lb: string, a: string, b: string)
    requires LineItems(la) == [a] && LineItems(lb) == [b]
    requires '\n' !in la && '\n' !in lb
    ensures ParsedItems(la + "\n" + lb) == [a, b]
  {
    SplitTwoLines(la, lb);
    TwoLineExtract(la, lb, a, b);
  }

  lemma TwoLineExtract(la: string, lb: string, a: string, b: string)
    requires LineItems(la) == [a] && LineItems(lb) == [b]
    ensures Extract([la, lb]) == [a, b]
  {
    assert Contributions([la, lb]) == [[a], [b]];
    FlattenPair(a, b);
  }

  /** A one-line reply that is not a list line comes back as the only item. */
  lemma SingleLineReply(a: string)
    requires '\n' !in a && !Kept(a)
    ensures ParsedItems(a) == [a]
  {
    SplitNoSep(a, '\n');
    assert Contributions([a]) == [[]];
    var none: seq<seq<string>> := [[]];
    assert none[..0] == [];
  }
}
