/** View inheritance: locating anchors, editing a tree in place and composing ancestors (anchor_check.py). */
module Anchors {
  import opened Orders

  /** An XML element; comments and processing instructions are not kept. */
  datatype Node = Node(tag: string, attrs: map<string, string>, text: Option<string>, kids: seq<Node>)

  /** Child indices from the root down. */
  type Path = seq<nat>

  predicate ValidPath(t: Node, p: Path)
    decreases p
  {
    p == [] || (p[0] < |t.kids| && ValidPath(t.kids[p[0]], p[1..]))
  }

  function NodeAt(t: Node, p: Path): Node
    requires ValidPath(t, p)
    decreases p
  {
    if p == [] then t else NodeAt(t.kids[p[0]], p[1..])
  }

  // ------------------------------------------------------------------------
  // Locating an anchor
  // ------------------------------------------------------------------------

  /** Same tag, and every attribute of the spec except `position` and `version` has the same value. */
  predicate Matches(n: Node, spec: Node) {
    n.tag == spec.tag && AttrsMatch(n.attrs, spec)
  }

  predicate AttrsMatch(attrs: map<string, string>, spec: Node) {
    forall k :: k in spec.attrs && k != "position" && k != "version" ==> k in attrs && attrs[k] == spec.attrs[k]
  }

  /** First match in document order. */
  function Find(t: Node, spec: Node): Option<Path>
    decreases t, 0
  {
    if Matches(t, spec) then Some([]) else FindAmong(t.kids, spec, 0)
  }

  function FindAmong(kids: seq<Node>, spec: Node, i: nat): Option<Path>
    requires i <= |kids|
    decreases kids, |kids| - i
  {
    if i == |kids| then None
    else
      match Find(kids[i], spec)
      case Some(p) => Some([i] + p)
      case None => FindAmong(kids, spec, i + 1)
  }

  /** Evaluation of an xpath expression, not modelled: the first node it selects, if any. */
  type XPath = (Node, string) -> Option<Path>

  function Locate(xp: XPath, arch: Node, spec: Node): (r: Option<Path>)
    ensures r.Some? ==> ValidPath(arch, r.value)
  {
    FindIsFirst(arch, spec);
    if spec.tag == "xpath" then
      var p := xp(arch, if "expr" in spec.attrs then spec.attrs["expr"] else ".");
      if p.Some? && ValidPath(arch, p.value) then p else None
    else Find(arch, spec)
  }

  /** Document order on paths: an ancestor first, then by position among siblings. */
  predicate NotAfter(p: Path, q: Path)
    decreases p
  {
    p == [] || (q != [] && (p[0] < q[0] || (p[0] == q[0] && NotAfter(p[1..], q[1..]))))
  }

  /** What tag+attribute anchors can see of a node. */
  type Face = (string, map<string, string>)

  function FaceOf(n: Node): Face {
    (n.tag, n.attrs)
  }

  /** The tag is the spec's, and every attribute of the spec other than its position and version is there with the
      same value. */
  predicate FaceMatches(f: Face, spec: Node) {
    f.0 == spec.tag && (spec.attrs - {"position", "version"}).Items <= f.1.Items
  }

  lemma MatchesByFace(n: Node, spec: Node)
    ensures Matches(n, spec) <==> FaceMatches(FaceOf(n), spec)
  {
    var wanted := spec.attrs - {"position", "version"};
    if Matches(n, spec) {
      forall i | i in wanted.Items ensures i in n.attrs.Items {
        assert i.0 in spec.attrs && i.0 != "position" && i.0 != "version";
      }
    }
    if wanted.Items <= n.attrs.Items {
      forall k | k in spec.attrs && k != "position" && k != "version"
        ensures k in n.attrs && n.attrs[k] == spec.attrs[k]
      {
        assert (k, spec.attrs[k]) in wanted.Items;
      }
    }
  }

  /** The anchor found is the first node with the spec's tag and attributes, and there is one exactly when some node
      has them. */
  lemma FindIsFirst(t: Node, spec: Node)
    ensures Find(t, spec).Some? ==>
              ValidPath(t, Find(t, spec).value) && FaceMatches(FaceOf(NodeAt(t, Find(t, spec).value)), spec)
    ensures forall q :: ValidPath(t, q) && FaceMatches(FaceOf(NodeAt(t, q)), spec) ==>
              Find(t, spec).Some? && NotAfter(Find(t, spec).value, q)
  {
    FindsFirstMatch(t, spec);
    if Find(t, spec).Some? {
      MatchesByFace(NodeAt(t, Find(t, spec).value), spec);
    }
    forall q | ValidPath(t, q) && FaceMatches(FaceOf(NodeAt(t, q)), spec)
      ensures Find(t, spec).Some? && NotAfter(Find(t, spec).value, q)
    {
      MatchesByFace(NodeAt(t, q), spec);
    }
  }

  /** Locating by tag and attributes, the condition written out: what is located has the spec's tag and every attribute
      asked for with its value, and stands before every other such node; nothing is located exactly when every node of
      the tree has another tag or lacks one of those values. */
  lemma LocatesFirstOffer(xp: XPath, arch: Node, spec: Node)
    requires spec.tag != "xpath"
    ensures var r := Locate(xp, arch, spec);
            r.Some? ==>
              var n := NodeAt(arch, r.value);
              n.tag == spec.tag
              && forall k :: k in spec.attrs && k != "position" && k != "version" ==>
                   k in n.attrs && n.attrs[k] == spec.attrs[k]
    ensures forall q :: ValidPath(arch, q) ==>
              var r, n := Locate(xp, arch, spec), NodeAt(arch, q);
              || (r.Some? && NotAfter(r.value, q))
              || n.tag != spec.tag
              || exists k :: k in spec.attrs && k != "position" && k != "version"
                             && (k !in n.attrs || n.attrs[k] != spec.attrs[k])
  {
    FindsFirstMatch(arch, spec);
    forall q | ValidPath(arch, q) && Matches(NodeAt(arch, q), spec)
      ensures Find(arch, spec).Some? && NotAfter(Find(arch, spec).value, q)
    {
    }
  }

  /** Locating by expression: the node the expression selects, the tree's root being where it starts and what it selects
      when none is given. */
  lemma LocatesBySelection(xp: XPath, arch: Node, spec: Node, expr: string)
    requires spec.tag == "xpath"
    requires if "expr" in spec.attrs then spec.attrs["expr"] == expr else expr == "."
    ensures match xp(arch, expr)
            case None => Locate(xp, arch, spec) == None
            case Some(p) => Locate(xp, arch, spec) == if ValidPath(arch, p) then Some(p) else None
  {
  }

  lemma {:induction false} FindsFirstMatch(t: Node, spec: Node)
    ensures Find(t, spec).Some? ==> ValidPath(t, Find(t, spec).value) && Matches(NodeAt(t, Find(t, spec).value), spec)
    ensures forall q :: ValidPath(t, q) && Matches(NodeAt(t, q), spec) ==>
              Find(t, spec).Some? && NotAfter(Find(t, spec).value, q)
    decreases t, 0
  {
    if !Matches(t, spec) {
      FirstAmong(t.kids, spec, 0);
      forall q | ValidPath(t, q) && Matches(NodeAt(t, q), spec)
        ensures Find(t, spec).Some? && NotAfter(Find(t, spec).value, q)
      {
        assert q != [] && ValidPath(t.kids[q[0]], q[1..]);
      }
    }
  }

  lemma {:induction false} FirstAmong(kids: seq<Node>, spec: Node, i: nat)
    requires i <= |kids|
    ensures var r := FindAmong(kids, spec, i);
            r.Some? ==> r.value != [] && i <= r.value[0] < |kids| && ValidPath(kids[r.value[0]], r.value[1..])
                        && Matches(NodeAt(kids[r.value[0]], r.value[1..]), spec)
    ensures forall q ::
              q != [] && i <= q[0] < |kids| && ValidPath(kids[q[0]], q[1..])
              && Matches(NodeAt(kids[q[0]], q[1..]), spec) ==>
                FindAmong(kids, spec, i).Some? && NotAfter(FindAmong(kids, spec, i).value, q)
    decreases kids, |kids| - i
  {
    if i < |kids| {
      FindsFirstMatch(kids[i], spec);
      FirstAmong(kids, spec, i + 1);
      var f := Find(kids[i], spec);
      if f.Some? {
        assert ([i] + f.value)[1..] == f.value;
      }
    }
  }

  // ------------------------------------------------------------------------
  // Editing
  // ------------------------------------------------------------------------

  function Position(spec: Node): string {
    if "position" in spec.attrs then spec.attrs["position"] else "inside"
  }

  /** Elements with one tag in document order, the start included. */
  function Descendants(t: Node, tag: string): seq<Node>
    decreases t, 0
  {
    (if t.tag == tag then [t] else []) + DescendantsAll(t.kids, tag)
  }

  function DescendantsAll(ts: seq<Node>, tag: string): seq<Node>
    decreases ts
  {
    if ts == [] then [] else Descendants(ts[0], tag) + DescendantsAll(ts[1..], tag)
  }

  predicate Given(n: Node, k: string) {
    k in n.attrs && n.attrs[k] != ""
  }

  /** `attributes`: set or drop one attribute per `<attribute>` element; a nameless one raises. */
  function SetAttributes(n: Node, atts: seq<Node>): (Node, bool)
    decreases atts
  {
    if atts == [] then (n, false)
    else
      var a := atts[0];
      if "name" !in a.attrs then (n, true)
      else if a.text.None? && !Given(a, "add") && !Given(a, "remove") then
        SetAttributes(n.(attrs := n.attrs - {a.attrs["name"]}), atts[1..])
      else
        SetAttributes(n.(attrs := n.attrs[a.attrs["name"] := if a.text.Some? then a.text.value else ""]), atts[1..])
  }

  /** Replace the child list entries `lo..hi` of the node at `p` by `content`. */
  function Splice(t: Node, p: Path, lo: nat, hi: nat, content: seq<Node>): Node
    requires ValidPath(t, p) && lo <= hi <= |NodeAt(t, p).kids|
    decreases p
  {
    if p == [] then t.(kids := t.kids[..lo] + content + t.kids[hi..])
    else t.(kids := t.kids[p[0] := Splice(t.kids[p[0]], p[1..], lo, hi, content)])
  }

  function Substitute(t: Node, p: Path, n: Node): Node
    requires ValidPath(t, p)
    decreases p
  {
    if p == [] then n else t.(kids := t.kids[p[0] := Substitute(t.kids[p[0]], p[1..], n)])
  }

  function Up(p: Path): Path
    requires p != []
  {
    p[..|p| - 1]
  }

  function Last(p: Path): nat
    requires p != []
  {
    p[|p| - 1]
  }

  lemma {:induction false} UpIsValid(t: Node, p: Path)
    requires ValidPath(t, p) && p != []
    ensures ValidPath(t, Up(p)) && Last(p) < |NodeAt(t, Up(p)).kids|
    decreases p
  {
    if |p| > 1 {
      UpIsValid(t.kids[p[0]], p[1..]);
      assert Up(p)[1..] == Up(p[1..]);
    }
  }

  /** One located operation: the edited tree and whether it raised. A sibling insertion at the root
      raises (there is no parent); replacing the root does nothing; `move` is not simulated. */
  function ApplyOp(t: Node, spec: Node, p: Path): (Node, bool)
    requires ValidPath(t, p)
  {
    var pos := Position(spec);
    if pos == "attributes" then
      var (n, raised) := SetAttributes(NodeAt(t, p), Descendants(spec, "attribute"));
      (Substitute(t, p, n), raised)
    else if pos == "inside" then
      var n := |NodeAt(t, p).kids|;
      (Splice(t, p, n, n, spec.kids), false)
    else if pos == "after" || pos == "before" then
      if p == [] then (t, true)
      else
        UpIsValid(t, p);
        var idx := Last(p) + if pos == "after" then 1 else 0;
        (Splice(t, Up(p), idx, idx, spec.kids), false)
    else if pos == "replace" then
      if p == [] then (t, false)
      else
        UpIsValid(t, p);
        (Splice(t, Up(p), Last(p), Last(p) + 1, spec.kids), false)
    else (t, false)
  }

  // ------------------------------------------------------------------------
  // What insertions keep
  // ------------------------------------------------------------------------

  /** The tags and attributes of all nodes. */
  function Faces(t: Node): multiset<Face>
    decreases t, 0
  {
    multiset{(t.tag, t.attrs)} + FacesAll(t.kids)
  }

  function FacesAll(ts: seq<Node>): multiset<Face>
    decreases ts
  {
    if ts == [] then multiset{} else Faces(ts[0]) + FacesAll(ts[1..])
  }

  ghost predicate Offers(faces: multiset<Face>, spec: Node) {
    exists f :: f in faces && FaceMatches(f, spec)
  }

  lemma {:induction false} FacesAppend(a: seq<Node>, b: seq<Node>)
    ensures FacesAll(a + b) == FacesAll(a) + FacesAll(b)
  {
    if a == [] {
      assert a + b == b;
    } else {
      assert (a + b)[1..] == a[1..] + b;
      FacesAppend(a[1..], b);
    }
  }

  lemma FacesPick(ts: seq<Node>, i: nat)
    requires i < |ts|
    ensures FacesAll(ts) == FacesAll(ts[..i]) + Faces(ts[i]) + FacesAll(ts[i + 1..])
  {
    assert ts == ts[..i] + ts[i..] && ts[i..][1..] == ts[i + 1..];
    FacesAppend(ts[..i], ts[i..]);
  }

  lemma FacesUpdate(ts: seq<Node>, i: nat, n: Node, more: multiset<Face>)
    requires i < |ts| && Faces(n) == Faces(ts[i]) + more
    ensures FacesAll(ts[i := n]) == FacesAll(ts) + more
  {
    FacesPick(ts, i);
    FacesPick(ts[i := n], i);
    assert ts[i := n][..i] == ts[..i] && ts[i := n][i + 1..] == ts[i + 1..];
  }

  lemma FacesInsertBetween(a: seq<Node>, content: seq<Node>, b: seq<Node>)
    ensures FacesAll(a + content + b) == FacesAll(a + b) + FacesAll(content)
  {
    FacesAppend(a + content, b);
    FacesAppend(a, content);
    FacesAppend(a, b);
  }

  lemma FacesInsert(kids: seq<Node>, i: nat, content: seq<Node>)
    requires i <= |kids|
    ensures FacesAll(kids[..i] + content + kids[i..]) == FacesAll(kids) + FacesAll(content)
  {
    var a, b := kids[..i], kids[i..];
    assert kids == a + b;
    FacesInsertBetween(a, content, b);
  }

  /** Splicing content in adds exactly the content's faces and keeps the root's own. */
  lemma {:induction false} SpliceAdds(t: Node, p: Path, i: nat, content: seq<Node>)
    requires ValidPath(t, p) && i <= |NodeAt(t, p).kids|
    ensures Faces(Splice(t, p, i, i, content)) == Faces(t) + FacesAll(content)
    ensures var t' := Splice(t, p, i, i, content); t'.tag == t.tag && t'.attrs == t.attrs
    decreases p
  {
    if p == [] {
      FacesInsert(t.kids, i, content);
    } else {
      var kid := t.kids[p[0]];
      var kid' := Splice(kid, p[1..], i, i, content);
      SpliceAdds(kid, p[1..], i, content);
      FacesUpdate(t.kids, p[0], kid', FacesAll(content));
      assert Splice(t, p, i, i, content) == t.(kids := t.kids[p[0] := kid']);
    }
  }

  /** An anchor is located exactly when some node offers its tag and attributes. */
  lemma {:induction false} FoundIffOffered(t: Node, spec: Node)
    ensures Find(t, spec).Some? <==> Offers(Faces(t), spec)
    decreases t, 0
  {
    FoundAmongIffOffered(t.kids, spec, 0);
    MatchesByFace(t, spec);
    assert t.kids[0..] == t.kids;
    if Matches(t, spec) {
      assert FaceOf(t) in Faces(t) && FaceMatches(FaceOf(t), spec);
    } else if Offers(FacesAll(t.kids), spec) {
      var f :| f in FacesAll(t.kids) && FaceMatches(f, spec);
      assert f in Faces(t);
    }
  }

  lemma {:induction false} FoundAmongIffOffered(kids: seq<Node>, spec: Node, i: nat)
    requires i <= |kids|
    ensures FindAmong(kids, spec, i).Some? <==> Offers(FacesAll(kids[i..]), spec)
    decreases kids, |kids| - i
  {
    if i < |kids| {
      FoundIffOffered(kids[i], spec);
      FoundAmongIffOffered(kids, spec, i + 1);
      assert kids[i..][1..] == kids[i + 1..];
      OffersSum(Faces(kids[i]), FacesAll(kids[i + 1..]), spec);
    }
  }

  lemma OffersSum(a: multiset<Face>, b: multiset<Face>, spec: Node)
    ensures Offers(a + b, spec) <==> Offers(a, spec) || Offers(b, spec)
  {
    if f :| f in a && FaceMatches(f, spec) { assert f in a + b; }
    if f :| f in b && FaceMatches(f, spec) { assert f in a + b; }
  }

  predicate Inserts(spec: Node) {
    Position(spec) in {"inside", "after", "before"}
  }

  /** The anchor is told by tag and attributes, not by an expression. */
  predicate ByTag(spec: Node) {
    spec.tag != "xpath"
  }

  /** A sibling insertion whose anchor is the root itself has nowhere to go. */
  predicate BesideRoot(spec: Node, p: Path) {
    Position(spec) in {"after", "before"} && p == []
  }

  /** What a located insertion adds: its content, or nothing beside the root. */
  function Added(spec: Node, p: Path): multiset<Face> {
    if BesideRoot(spec, p) then multiset{} else FacesAll(spec.kids)
  }

  /** A located insertion raises exactly beside the root, adds exactly its content, and leaves the root's tag and
      attributes alone. */
  lemma InsertionAdds(t: Node, spec: Node, p: Path)
    requires Inserts(spec) && ValidPath(t, p)
    ensures var (t', raised) := ApplyOp(t, spec, p);
            && (raised <==> BesideRoot(spec, p))
            && Faces(t') == Faces(t) + Added(spec, p) && t'.tag == t.tag && t'.attrs == t.attrs
  {
    if Position(spec) == "inside" {
      SpliceAdds(t, p, |NodeAt(t, p).kids|, spec.kids);
    } else if p != [] {
      UpIsValid(t, p);
      SiblingAdds(t, spec, p, Last(p) + if Position(spec) == "after" then 1 else 0);
    }
  }

  lemma SiblingAdds(t: Node, spec: Node, p: Path, idx: nat)
    requires Position(spec) in {"after", "before"} && ValidPath(t, p) && p != []
    requires ValidPath(t, Up(p)) && idx == Last(p) + (if Position(spec) == "after" then 1 else 0) &&
      idx <= |NodeAt(t, Up(p)).kids|
    ensures ApplyOp(t, spec, p) == (Splice(t, Up(p), idx, idx, spec.kids), false)
    ensures var t' := Splice(t, Up(p), idx, idx, spec.kids);
            Faces(t') == Faces(t) + FacesAll(spec.kids) && t'.tag == t.tag && t'.attrs == t.attrs
  {
    SpliceAdds(t, Up(p), idx, spec.kids);
  }

  // ------------------------------------------------------------------------
  // Where the content ends up
  // ------------------------------------------------------------------------

  /** An element as text: opening tag, children, closing tag. */
  datatype Token = Open(tag: string, attrs: map<string, string>, text: Option<string>) | Close(tag: string)

  function Xml(t: Node): seq<Token>
    decreases t, 0
  {
    [Start(t)] + XmlAll(t.kids) + [Close(t.tag)]
  }

  function XmlAll(ts: seq<Node>): seq<Token>
    decreases ts
  {
    if ts == [] then [] else Xml(ts[0]) + XmlAll(ts[1..])
  }

  function Start(t: Node): Token {
    Open(t.tag, t.attrs, t.text)
  }

  /** The text before the element at `p`. */
  function Left(t: Node, p: Path): seq<Token>
    requires ValidPath(t, p)
    decreases p
  {
    if p == [] then [] else [Start(t)] + XmlAll(t.kids[..p[0]]) + Left(t.kids[p[0]], p[1..])
  }

  /** The text after the element at `p`. */
  function Right(t: Node, p: Path): seq<Token>
    requires ValidPath(t, p)
    decreases p
  {
    if p == [] then [] else Right(t.kids[p[0]], p[1..]) + XmlAll(t.kids[p[0] + 1..]) + [Close(t.tag)]
  }

  lemma {:induction false} XmlAppend(a: seq<Node>, b: seq<Node>)
    ensures XmlAll(a + b) == XmlAll(a) + XmlAll(b)
  {
    if a == [] {
      assert a + b == b;
    } else {
      assert (a + b)[1..] == a[1..] + b;
      XmlAppend(a[1..], b);
    }
  }

  lemma XmlOne(n: Node)
    ensures XmlAll([n]) == Xml(n)
  {
    assert XmlAll([n]) == Xml(n) + XmlAll([]);
  }

  lemma XmlAround(a: seq<Node>, n: Node, b: seq<Node>)
    ensures XmlAll(a + [n] + b) == XmlAll(a) + Xml(n) + XmlAll(b)
  {
    XmlAppend(a + [n], b);
    XmlAppend(a, [n]);
    XmlOne(n);
  }

  lemma Regroup(o: seq<Token>, a: seq<Token>, l: seq<Token>, x: seq<Token>, r: seq<Token>, b: seq<Token>, c: seq<Token>)
    ensures o + (a + (l + x + r) + b) + c == (o + a + l) + x + (r + b + c)
  {
  }

  /** Substituting an element changes that element's text and nothing around it. */
  lemma {:induction false} SubstituteText(t: Node, p: Path, n: Node)
    requires ValidPath(t, p)
    ensures Xml(Substitute(t, p, n)) == Left(t, p) + Xml(n) + Right(t, p)
    decreases p
  {
    if p != [] {
      var i := p[0];
      var kid := Substitute(t.kids[i], p[1..], n);
      SubstituteText(t.kids[i], p[1..], n);
      SubstituteKid(t, i, kid);
      Regroup([Start(t)], XmlAll(t.kids[..i]), Left(t.kids[i], p[1..]), Xml(n),
              Right(t.kids[i], p[1..]), XmlAll(t.kids[i + 1..]), [Close(t.tag)]);
    }
  }

  lemma SubstituteKid(t: Node, i: nat, kid: Node)
    requires i < |t.kids|
    ensures Xml(t.(kids := t.kids[i := kid])) ==
            [Start(t)] + (XmlAll(t.kids[..i]) + Xml(kid) + XmlAll(t.kids[i + 1..])) + [Close(t.tag)]
  {
    assert t.kids[i := kid] == t.kids[..i] + [kid] + t.kids[i + 1..];
    XmlAround(t.kids[..i], kid, t.kids[i + 1..]);
  }

  lemma {:induction false} SubstituteSelf(t: Node, p: Path)
    requires ValidPath(t, p)
    ensures Substitute(t, p, NodeAt(t, p)) == t
    decreases p
  {
    if p != [] {
      SubstituteSelf(t.kids[p[0]], p[1..]);
      assert t.kids[p[0] := t.kids[p[0]]] == t.kids;
    }
  }

  function SpliceHere(n: Node, lo: nat, hi: nat, content: seq<Node>): Node
    requires lo <= hi <= |n.kids|
  {
    n.(kids := n.kids[..lo] + content + n.kids[hi..])
  }

  lemma {:induction false} SpliceIsSubstitute(t: Node, p: Path, lo: nat, hi: nat, content: seq<Node>)
    requires ValidPath(t, p) && lo <= hi <= |NodeAt(t, p).kids|
    ensures Splice(t, p, lo, hi, content) == Substitute(t, p, SpliceHere(NodeAt(t, p), lo, hi, content))
    decreases p
  {
    if p != [] {
      SpliceIsSubstitute(t.kids[p[0]], p[1..], lo, hi, content);
    }
  }

  lemma {:induction false} ChildOfParent(t: Node, p: Path)
    requires ValidPath(t, p) && p != [] && ValidPath(t, Up(p)) && Last(p) < |NodeAt(t, Up(p)).kids|
    ensures NodeAt(t, p) == NodeAt(t, Up(p)).kids[Last(p)]
    decreases p
  {
    if |p| == 1 {
      assert p[1..] == [];
    } else {
      assert Up(p)[1..] == Up(p[1..]) && Up(p)[0] == p[0];
      ChildOfParent(t.kids[p[0]], p[1..]);
    }
  }

  lemma {:induction false} LeftOfChild(t: Node, p: Path)
    requires ValidPath(t, p) && p != [] && ValidPath(t, Up(p)) && Last(p) < |NodeAt(t, Up(p)).kids|
    ensures var parent := NodeAt(t, Up(p));
      Left(t, p) == Left(t, Up(p)) + ([Start(parent)] + XmlAll(parent.kids[..Last(p)]))
    decreases p
  {
    if |p| == 1 {
      assert p[1..] == [] && Up(p) == [];
    } else {
      assert Up(p)[1..] == Up(p[1..]) && Up(p)[0] == p[0];
      LeftOfChild(t.kids[p[0]], p[1..]);
    }
  }

  lemma RightGroups(x: seq<Token>, c: seq<Token>, r: seq<Token>, y: seq<Token>, z: seq<Token>)
    ensures (x + c + r) + y + z == x + c + (r + y + z)
  {
  }

  lemma {:induction false} RightOfChild(t: Node, p: Path)
    requires ValidPath(t, p) && p != [] && ValidPath(t, Up(p)) && Last(p) < |NodeAt(t, Up(p)).kids|
    ensures var parent := NodeAt(t, Up(p));
      Right(t, p) == XmlAll(parent.kids[Last(p) + 1..]) + [Close(parent.tag)] + Right(t, Up(p))
    decreases p
  {
    if |p| == 1 {
      assert p[1..] == [] && Up(p) == [];
    } else {
      assert Up(p)[1..] == Up(p[1..]) && Up(p)[0] == p[0];
      RightOfChild(t.kids[p[0]], p[1..]);
      var parent := NodeAt(t, Up(p));
      RightGroups(XmlAll(parent.kids[Last(p) + 1..]), [Close(parent.tag)], Right(t.kids[p[0]], Up(p[1..])),
                  XmlAll(t.kids[p[0] + 1..]), [Close(t.tag)]);
    }
  }

  /** A child, and the text on either side of it, told from its parent. */
  lemma SidesFromParent(t: Node, p: Path)
    requires ValidPath(t, p) && p != [] && ValidPath(t, Up(p)) && Last(p) < |NodeAt(t, Up(p)).kids|
    ensures NodeAt(t, p) == NodeAt(t, Up(p)).kids[Last(p)]
    ensures var parent := NodeAt(t, Up(p));
            Left(t, p) == Left(t, Up(p)) + ([Start(parent)] + XmlAll(parent.kids[..Last(p)]))
            && Right(t, p) == XmlAll(parent.kids[Last(p) + 1..]) + [Close(parent.tag)] + Right(t, Up(p))
  {
    ChildOfParent(t, p);
    LeftOfChild(t, p);
    RightOfChild(t, p);
  }

  lemma SpliceText(t: Node, p: Path, lo: nat, hi: nat, content: seq<Node>)
    requires ValidPath(t, p) && lo <= hi <= |NodeAt(t, p).kids|
    ensures var n := NodeAt(t, p);
            Xml(Splice(t, p, lo, hi, content)) ==
            Left(t, p) + ([Start(n)] +
              (XmlAll(n.kids[..lo]) + XmlAll(content) + XmlAll(n.kids[hi..])) + [Close(n.tag)]) + Right(t, p)
  {
    var n := NodeAt(t, p);
    SpliceIsSubstitute(t, p, lo, hi, content);
    SubstituteText(t, p, SpliceHere(n, lo, hi, content));
    XmlAppend(n.kids[..lo] + content, n.kids[hi..]);
    XmlAppend(n.kids[..lo], content);
  }

  /** What a located operation does to the document's text: content goes right before the anchor's closing
      tag, right after it, right before its opening tag, or in the anchor's place. */
  ghost predicate TextEdited(t: Node, spec: Node, p: Path, t': Node)
    requires ValidPath(t, p)
  {
    var anchor, content := NodeAt(t, p), XmlAll(spec.kids);
    match if "position" in spec.attrs then spec.attrs["position"] else "inside"
    case "inside" =>
      Xml(t') == Left(t, p) + ([Start(anchor)] + XmlAll(anchor.kids) + content + [Close(anchor.tag)]) + Right(t, p)
    case "after" => Xml(t') == if p == [] then Xml(t) else Left(t, p) + Xml(anchor) + content + Right(t, p)
    case "before" => Xml(t') == if p == [] then Xml(t) else Left(t, p) + content + Xml(anchor) + Right(t, p)
    case "replace" => Xml(t') == if p == [] then Xml(t) else Left(t, p) + content + Right(t, p)
    case "attributes" =>
      exists attrs :: Xml(t') ==
        Left(t, p) + ([Open(anchor.tag, attrs, anchor.text)] + XmlAll(anchor.kids) + [Close(anchor.tag)]) + Right(t, p)
    case _ => Xml(t') == Xml(t)
  }

  lemma OperationText(t: Node, spec: Node, p: Path)
    requires ValidPath(t, p)
    ensures Xml(t) == Left(t, p) + Xml(NodeAt(t, p)) + Right(t, p)
    ensures TextEdited(t, spec, p, ApplyOp(t, spec, p).0)
  {
    SubstituteSelf(t, p);
    SubstituteText(t, p, NodeAt(t, p));
    var pos := Position(spec);
    if pos == "inside" {
      InsideText(t, p, spec.kids);
    } else if pos in {"after", "before", "replace"} && p != [] {
      UpIsValid(t, p);
      AfterText(t, p, spec.kids);
      BeforeText(t, p, spec.kids);
      ReplaceText(t, p, spec.kids);
    } else if pos == "attributes" {
      var n := SetAttributes(NodeAt(t, p), Descendants(spec, "attribute")).0;
      OnlyAttributes(NodeAt(t, p), Descendants(spec, "attribute"));
      SubstituteText(t, p, n);
      assert Xml(n) == [Open(n.tag, n.attrs, n.text)] + XmlAll(n.kids) + [Close(n.tag)];
    }
  }

  lemma {:induction false} OnlyAttributes(n: Node, atts: seq<Node>)
    ensures var n' := SetAttributes(n, atts).0; n' == n.(attrs := n'.attrs)
    decreases atts
  {
    if atts != [] && "name" in atts[0].attrs {
      var a := atts[0];
      if a.text.None? && !Given(a, "add") && !Given(a, "remove") {
        OnlyAttributes(n.(attrs := n.attrs - {a.attrs["name"]}), atts[1..]);
      } else {
        OnlyAttributes(n.(attrs := n.attrs[a.attrs["name"] := if a.text.Some? then a.text.value else ""]), atts[1..]);
      }
    }
  }

  predicate NamesKey(a: Node, k: string) {
    "name" in a.attrs && a.attrs["name"] == k
  }

  /** An `<attribute>` element without text that neither adds nor removes anything. */
  predicate Drops(a: Node) {
    a.text == None && forall k :: k in {"add", "remove"} && k in a.attrs ==> a.attrs[k] == ""
  }

  lemma {:induction false} UnnamedIsKept(n: Node, atts: seq<Node>, k: string)
    requires forall i :: 0 <= i < |atts| ==> !NamesKey(atts[i], k)
    ensures var n' := SetAttributes(n, atts).0;
            (k in n'.attrs <==> k in n.attrs) && (k in n.attrs ==> n'.attrs[k] == n.attrs[k])
    decreases atts
  {
    if atts != [] && "name" in atts[0].attrs {
      assert !NamesKey(atts[0], k);
      UnnamedIsKept(SetAttributes(n, [atts[0]]).0, atts[1..], k);
      SetFirst(n, atts);
    }
  }

  lemma SetFirst(n: Node, atts: seq<Node>)
    requires atts != [] && "name" in atts[0].attrs
    ensures SetAttributes(n, atts) == SetAttributes(SetAttributes(n, [atts[0]]).0, atts[1..])
  {
  }

  lemma {:induction false} LastNamedDecides(n: Node, atts: seq<Node>, k: string, i: nat)
    requires i < |atts| && NamesKey(atts[i], k) && forall j :: i < j < |atts| ==> !NamesKey(atts[j], k)
    requires forall j :: 0 <= j < |atts| ==> "name" in atts[j].attrs
    ensures var n', a := SetAttributes(n, atts).0, atts[i];
            if Drops(a) then k !in n'.attrs
            else k in n'.attrs && n'.attrs[k] == if a.text.Some? then a.text.value else ""
    decreases atts
  {
    var first := SetAttributes(n, [atts[0]]).0;
    SetFirst(n, atts);
    if i == 0 {
      UnnamedIsKept(first, atts[1..], k);
    } else {
      LastNamedDecides(first, atts[1..], k, i - 1);
    }
  }

  lemma {:induction false} NamelessRaises(n: Node, atts: seq<Node>)
    ensures SetAttributes(n, atts).1 <==> exists i :: NamelessAt(atts, i)
    decreases atts
  {
    if atts != [] && "name" in atts[0].attrs {
      NamelessRaises(SetAttributes(n, [atts[0]]).0, atts[1..]);
      SetFirst(n, atts);
      if i :| NamelessAt(atts, i) { assert NamelessAt(atts[1..], i - 1); }
      if i :| NamelessAt(atts[1..], i) { assert NamelessAt(atts, i + 1); }
    } else if atts != [] {
      assert NamelessAt(atts, 0);
    }
  }

  ghost predicate IsWithin(n: Node, t: Node) {
    exists p :: ValidPath(t, p) && NodeAt(t, p) == n
  }

  ghost predicate InOrder(ps: seq<Path>) {
    forall i, j :: 0 <= i < j < |ps| ==> ps[i] != ps[j] && NotAfter(ps[i], ps[j])
  }

  /** The paths are those of the nodes. */
  ghost predicate PathsTo(t: Node, ps: seq<Path>, ns: seq<Node>) {
    |ps| == |ns| && forall i :: 0 <= i < |ps| ==> ValidPath(t, ps[i]) && NodeAt(t, ps[i]) == ns[i]
  }

  ghost predicate ListsAllTagged(t: Node, tag: string, ps: seq<Path>) {
    forall p :: ValidPath(t, p) && NodeAt(t, p).tag == tag ==> p in ps
  }

  /** The elements with one tag are all listed, in document order. */
  lemma {:induction false} DescendantsInOrder(t: Node, tag: string) returns (ps: seq<Path>)
    ensures PathsTo(t, ps, Descendants(t, tag)) && InOrder(ps) && ListsAllTagged(t, tag, ps)
    ensures forall n :: n in Descendants(t, tag) ==> n.tag == tag
    decreases t, 1
  {
    var below := DescendantsAllInOrder(t, tag, 0);
    assert t.kids[0..] == t.kids;
    ps := (if t.tag == tag then [[]] else []) + below;
  }

  /** The part below the children from the k-th on. */
  lemma {:induction false} DescendantsAllInOrder(t: Node, tag: string, k: nat) returns (ps: seq<Path>)
    requires k <= |t.kids|
    ensures PathsTo(t, ps, DescendantsAll(t.kids[k..], tag)) && InOrder(ps)
    ensures forall p :: ValidPath(t, p) && p != [] && p[0] >= k && NodeAt(t, p).tag == tag ==> p in ps
    ensures forall p :: p in ps ==> p != [] && p[0] >= k
    ensures forall n :: n in DescendantsAll(t.kids[k..], tag) ==> n.tag == tag
    decreases t, 0, |t.kids| - k
  {
    if k == |t.kids| {
      ps := [];
    } else {
      assert t.kids[k..][0] == t.kids[k] && t.kids[k..][1..] == t.kids[k + 1..];
      var first := DescendantsInOrder(t.kids[k], tag);
      var rest := DescendantsAllInOrder(t, tag, k + 1);
      var nodes, later := Descendants(t.kids[k], tag), DescendantsAll(t.kids[k + 1..], tag);
      BelowKid(t, k, first, nodes);
      ps := Below(k, first) + rest;
      InOrderConcat(Below(k, first), rest, k);
      PathsConcat(t, Below(k, first), rest, nodes, later);
      forall p | ValidPath(t, p) && p != [] && p[0] >= k && NodeAt(t, p).tag == tag ensures p in ps {
        if p[0] == k {
          BelowListsAll(t, tag, k, first, p);
        }
      }
    }
  }

  lemma InOrderConcat(a: seq<Path>, b: seq<Path>, k: nat)
    requires InOrder(a) && InOrder(b)
    requires (forall p :: p in a ==> p != [] && p[0] == k) && (forall p :: p in b ==> p != [] && p[0] > k)
    ensures InOrder(a + b)
  {
    forall i, j | 0 <= i < j < |a + b| ensures (a + b)[i] != (a + b)[j] && NotAfter((a + b)[i], (a + b)[j]) {
      if i < |a| <= j {
        assert a[i] in a && b[j - |a|] in b;
      }
    }
  }

  lemma PathsConcat(t: Node, a: seq<Path>, b: seq<Path>, m: seq<Node>, n: seq<Node>)
    requires PathsTo(t, a, m) && PathsTo(t, b, n)
    ensures PathsTo(t, a + b, m + n)
  {
  }

  lemma BelowListsAll(t: Node, tag: string, k: nat, first: seq<Path>, p: Path)
    requires k < |t.kids| && ListsAllTagged(t.kids[k], tag, first)
    requires ValidPath(t, p) && p != [] && p[0] == k && NodeAt(t, p).tag == tag
    ensures p in Below(k, first)
  {
    assert ValidPath(t.kids[k], p[1..]) && NodeAt(t.kids[k], p[1..]).tag == tag;
    InBelow(k, first, p);
  }

  function Below(k: nat, ps: seq<Path>): seq<Path> {
    seq(|ps|, i requires 0 <= i < |ps| => [k] + ps[i])
  }

  lemma InBelow(k: nat, ps: seq<Path>, p: Path)
    requires p != [] && p[0] == k && p[1..] in ps
    ensures p in Below(k, ps)
  {
    var i :| 0 <= i < |ps| && ps[i] == p[1..];
    assert Below(k, ps)[i] == p;
  }

  lemma BelowKid(t: Node, k: nat, ps: seq<Path>, ns: seq<Node>)
    requires k < |t.kids| && PathsTo(t.kids[k], ps, ns) && InOrder(ps)
    ensures PathsTo(t, Below(k, ps), ns) && InOrder(Below(k, ps))
    ensures forall p :: p in Below(k, ps) ==> p != [] && p[0] == k
  {
    forall i | 0 <= i < |ps| ensures Below(k, ps)[i][1..] == ps[i] {}
    forall i, j | 0 <= i < j < |ps|
      ensures Below(k, ps)[i] != Below(k, ps)[j] && NotAfter(Below(k, ps)[i], Below(k, ps)[j])
    {
      assert Below(k, ps)[i][1..] == ps[i] && Below(k, ps)[j][1..] == ps[j];
    }
  }
  /** Attributes no element names are as before. */
  ghost predicate OthersKept(before: map<string, string>, atts: seq<Node>, after: map<string, string>) {
    forall k :: (forall i :: 0 <= i < |atts| ==> !NamesKey(atts[i], k)) ==>
      (k in after <==> k in before) && (k in before ==> after[k] == before[k])
  }

  predicate LastNaming(atts: seq<Node>, i: int, k: string) {
    0 <= i < |atts| && NamesKey(atts[i], k) && forall j :: i < j < |atts| ==> !NamesKey(atts[j], k)
  }

  /** The last element naming an attribute decides it. */
  ghost predicate LastDecides(atts: seq<Node>, after: map<string, string>) {
    forall k, i :: LastNaming(atts, i, k) ==>
      if Drops(atts[i]) then k !in after
      else k in after && after[k] == if atts[i].text.Some? then atts[i].text.value else ""
  }

  lemma AttributesAreSet(n: Node, atts: seq<Node>)
    requires !SetAttributes(n, atts).1
    ensures var n' := SetAttributes(n, atts).0;
            n' == n.(attrs := n'.attrs) && OthersKept(n.attrs, atts, n'.attrs) && LastDecides(atts, n'.attrs)
  {
    var after := SetAttributes(n, atts).0.attrs;
    OnlyAttributes(n, atts);
    NamelessRaises(n, atts);
    forall i | 0 <= i < |atts| ensures "name" in atts[i].attrs { assert !NamelessAt(atts, i); }
    forall k | forall i :: 0 <= i < |atts| ==> !NamesKey(atts[i], k)
      ensures (k in after <==> k in n.attrs) && (k in n.attrs ==> after[k] == n.attrs[k])
    {
      UnnamedIsKept(n, atts, k);
    }
    forall k, i | LastNaming(atts, i, k)
      ensures if Drops(atts[i]) then k !in after
              else k in after && after[k] == if atts[i].text.Some? then atts[i].text.value else ""
    {
      LastNamedDecides(n, atts, k, i);
    }
  }

  predicate NamelessAt(atts: seq<Node>, i: int) {
    0 <= i < |atts| && "name" !in atts[i].attrs
  }

  /** A nameless `<attribute>` element somewhere under the spec. */
  ghost predicate HasNameless(spec: Node) {
    exists a :: IsWithin(a, spec) && a.tag == "attribute" && "name" !in a.attrs
  }

  lemma SomeNameless(spec: Node, atts: seq<Node>)
    requires atts == Descendants(spec, "attribute")
    ensures (exists i :: NamelessAt(atts, i)) <==> HasNameless(spec)
  {
    var ps := DescendantsInOrder(spec, "attribute");
    if i :| NamelessAt(atts, i) {
      assert ValidPath(spec, ps[i]) && NodeAt(spec, ps[i]) == atts[i];
      assert atts[i] in atts && IsWithin(atts[i], spec);
    }
    if HasNameless(spec) {
      var a :| IsWithin(a, spec) && a.tag == "attribute" && "name" !in a.attrs;
      var p :| ValidPath(spec, p) && NodeAt(spec, p) == a;
      assert p in ps;
      var i :| 0 <= i < |ps| && ps[i] == p;
      assert NodeAt(spec, ps[i]) == atts[i];
      assert NamelessAt(atts, i);
    }
  }

  /** An `attributes` operation raises exactly when some `<attribute>` element under it has no name. Otherwise the last
      element naming an attribute decides its value, dropping it when it says nothing, and other attributes stay. */
  lemma AttributesFollowTheLast(t: Node, spec: Node, p: Path)
    requires ValidPath(t, p) && "position" in spec.attrs && spec.attrs["position"] == "attributes"
    ensures ApplyOp(t, spec, p).1 <==> HasNameless(spec)
    ensures !ApplyOp(t, spec, p).1 ==>
              exists after ::
                && ApplyOp(t, spec, p).0 == Substitute(t, p, NodeAt(t, p).(attrs := after))
                && OthersKept(NodeAt(t, p).attrs, Descendants(spec, "attribute"), after)
                && LastDecides(Descendants(spec, "attribute"), after)
  {
    var atts, n := Descendants(spec, "attribute"), NodeAt(t, p);
    SomeNameless(spec, atts);
    NamelessRaises(n, atts);
    if !ApplyOp(t, spec, p).1 {
      AttributesAreSet(n, atts);
    }
  }

  lemma InsideText(t: Node, p: Path, content: seq<Node>)
    requires ValidPath(t, p)
    ensures var n := NodeAt(t, p);
            Xml(Splice(t, p, |n.kids|, |n.kids|, content)) ==
            Left(t, p) + ([Start(n)] + XmlAll(n.kids) + XmlAll(content) + [Close(n.tag)]) + Right(t, p)
  {
    var n := NodeAt(t, p);
    SpliceText(t, p, |n.kids|, |n.kids|, content);
    assert n.kids[..|n.kids|] == n.kids && n.kids[|n.kids|..] == [];
    InsideGroups(Start(n), XmlAll(n.kids), XmlAll(content), Close(n.tag));
  }

  lemma InsideGroups(o: Token, a: seq<Token>, x: seq<Token>, c: Token)
    ensures [o] + (a + x + []) + [c] == [o] + a + x + [c]
  {
  }

  /** What stands between the two sides of a child's parent, told from the child. */
  lemma AroundKid(t: Node, p: Path, middle: seq<Token>)
    requires ValidPath(t, p) && p != [] && ValidPath(t, Up(p)) && Last(p) < |NodeAt(t, Up(p)).kids|
    ensures var parent, i := NodeAt(t, Up(p)), Last(p);
            Left(t, Up(p))
            + ([Start(parent)] + (XmlAll(parent.kids[..i]) + middle + XmlAll(parent.kids[i + 1..])) +
              [Close(parent.tag)])
            + Right(t, Up(p))
            == Left(t, p) + middle + Right(t, p)
  {
    SidesFromParent(t, p);
    var parent, i := NodeAt(t, Up(p)), Last(p);
    KidGroups(Left(t, Up(p)), [Start(parent)], XmlAll(parent.kids[..i]), middle,
              XmlAll(parent.kids[i + 1..]), [Close(parent.tag)], Right(t, Up(p)));
  }

  lemma KidGroups(l: seq<Token>, o: seq<Token>, a: seq<Token>, m: seq<Token>, b: seq<Token>, c: seq<Token>,
        r: seq<Token>)
    ensures l + (o + (a + m + b) + c) + r == (l + (o + a)) + m + (b + c + r)
  {
  }

  lemma MiddleGroups(a: seq<Token>, u: seq<Token>, v: seq<Token>, b: seq<Token>)
    ensures a + u + v + b == a + (u + v) + b == a + u + (v + b)
  {
  }

  lemma AfterText(t: Node, p: Path, content: seq<Node>)
    requires ValidPath(t, p) && p != [] && ValidPath(t, Up(p)) && Last(p) < |NodeAt(t, Up(p)).kids|
    ensures Xml(Splice(t, Up(p), Last(p) + 1, Last(p) + 1, content)) == Left(t, p) + Xml(NodeAt(t, p)) +
      XmlAll(content) + Right(t, p)
  {
    var kids, i, n, x := NodeAt(t, Up(p)).kids, Last(p), Xml(NodeAt(t, p)), XmlAll(content);
    SidesFromParent(t, p);
    SpliceText(t, Up(p), i + 1, i + 1, content);
    XmlBesideKid(kids, i);
    MiddleGroups(XmlAll(kids[..i]), n, x, XmlAll(kids[i + 1..]));
    AroundKid(t, p, n + x);
    MiddleGroups(Left(t, p), n, x, Right(t, p));
  }

  lemma BeforeText(t: Node, p: Path, content: seq<Node>)
    requires ValidPath(t, p) && p != [] && ValidPath(t, Up(p)) && Last(p) < |NodeAt(t, Up(p)).kids|
    ensures Xml(Splice(t, Up(p), Last(p), Last(p), content)) == Left(t, p) + XmlAll(content) + Xml(NodeAt(t, p)) +
      Right(t, p)
  {
    var kids, i, n, x := NodeAt(t, Up(p)).kids, Last(p), Xml(NodeAt(t, p)), XmlAll(content);
    SidesFromParent(t, p);
    SpliceText(t, Up(p), i, i, content);
    XmlBesideKid(kids, i);
    MiddleGroups(XmlAll(kids[..i]), x, n, XmlAll(kids[i + 1..]));
    AroundKid(t, p, x + n);
    MiddleGroups(Left(t, p), x, n, Right(t, p));
  }

  lemma ReplaceText(t: Node, p: Path, content: seq<Node>)
    requires ValidPath(t, p) && p != [] && ValidPath(t, Up(p)) && Last(p) < |NodeAt(t, Up(p)).kids|
    ensures Xml(Splice(t, Up(p), Last(p), Last(p) + 1, content)) == Left(t, p) + XmlAll(content) + Right(t, p)
  {
    SpliceText(t, Up(p), Last(p), Last(p) + 1, content);
    AroundKid(t, p, XmlAll(content));
  }

  lemma XmlBesideKid(kids: seq<Node>, i: nat)
    requires i < |kids|
    ensures XmlAll(kids[..i + 1]) == XmlAll(kids[..i]) + Xml(kids[i])
    ensures XmlAll(kids[i..]) == Xml(kids[i]) + XmlAll(kids[i + 1..])
  {
    assert kids[..i + 1] == kids[..i] + [kids[i]] && kids[i..] == [kids[i]] + kids[i + 1..];
    XmlAppend(kids[..i], [kids[i]]);
    XmlAppend([kids[i]], kids[i + 1..]);
    XmlOne(kids[i]);
  }

  // ------------------------------------------------------------------------
  // A list of operations
  // ------------------------------------------------------------------------

  /** The direct operation children, unwrapping a single bare `<data>`. */
  function OpsOf(container: Node): seq<Node> {
    var kids := container.kids;
    if |kids| == 1 && kids[0].tag == "data" && "position" !in kids[0].attrs then kids[0].kids else kids
  }

  /** How a composition ends: the view is unavailable, an operation raised, or there is a tree. */
  datatype Result = Missing | Raised | Composed(arch: Node)

  /** Composition's loop: operations without an anchor are skipped, an exception ends everything. */
  function Fold(xp: XPath, arch: Node, specs: seq<Node>): Result
    decreases specs
  {
    if specs == [] then Composed(arch)
    else
      match Locate(xp, arch, specs[0])
      case None => Fold(xp, arch, specs[1..])
      case Some(p) =>
        var (t, raised) := ApplyOp(arch, specs[0], p);
        if raised then Raised else Fold(xp, t, specs[1..])
  }

  /** The anchor check's loop: operations without an anchor are reported, exceptions are swallowed with
      whatever they changed. */
  function Check(xp: XPath, arch: Node, specs: seq<Node>): (Node, seq<Node>)
    decreases specs
  {
    if specs == [] then (arch, [])
    else
      match Locate(xp, arch, specs[0])
      case None =>
        var (t, missed) := Check(xp, arch, specs[1..]);
        (t, [specs[0]] + missed)
      case Some(p) => Check(xp, ApplyOp(arch, specs[0], p).0, specs[1..])
  }

  lemma {:induction false} FoldConcat(xp: XPath, arch: Node, a: seq<Node>, b: seq<Node>)
    ensures Fold(xp, arch, a + b) ==
            (match Fold(xp, arch, a) case Composed(t) => Fold(xp, t, b) case r => r)
    decreases a
  {
    if a == [] {
      assert a + b == b;
    } else {
      assert (a + b)[1..] == a[1..] + b;
      match Locate(xp, arch, a[0]) {
        case None => FoldConcat(xp, arch, a[1..], b);
        case Some(p) => FoldConcat(xp, ApplyOp(arch, a[0], p).0, a[1..], b);
      }
    }
  }

  /** Whenever composition's loop succeeds, the anchor check's loop builds the same tree. */
  lemma {:induction false} FoldAgreesWithCheck(xp: XPath, arch: Node, specs: seq<Node>)
    ensures Fold(xp, arch, specs).Composed? ==> Fold(xp, arch, specs).arch == Check(xp, arch, specs).0
    decreases specs
  {
    if specs != [] {
      match Locate(xp, arch, specs[0]) {
        case None => FoldAgreesWithCheck(xp, arch, specs[1..]);
        case Some(p) => FoldAgreesWithCheck(xp, ApplyOp(arch, specs[0], p).0, specs[1..]);
      }
    }
  }

  ghost predicate AllInsert(specs: seq<Node>) {
    forall i :: 0 <= i < |specs| ==> Inserts(specs[i])
  }

  ghost predicate AllByTag(specs: seq<Node>) {
    forall i :: 0 <= i < |specs| ==> ByTag(specs[i])
  }

  /** What the located operations of a list add, each located when its turn comes. */
  function AllAdded(xp: XPath, arch: Node, specs: seq<Node>): multiset<Face>
    decreases specs
  {
    if specs == [] then multiset{}
    else
      match Locate(xp, arch, specs[0])
      case None => AllAdded(xp, arch, specs[1..])
      case Some(p) => Added(specs[0], p) + AllAdded(xp, ApplyOp(arch, specs[0], p).0, specs[1..])
  }

  /** However their anchors are located, insertions add exactly the content of those that are. */
  lemma {:induction false} InsertionsGrowExactly(xp: XPath, arch: Node, specs: seq<Node>)
    requires AllInsert(specs)
    ensures var t := Check(xp, arch, specs).0;
            Faces(t) == Faces(arch) + AllAdded(xp, arch, specs) && t.tag == arch.tag && t.attrs == arch.attrs
    decreases specs
  {
    if specs != [] {
      match Locate(xp, arch, specs[0]) {
        case None => InsertionsGrowExactly(xp, arch, specs[1..]);
        case Some(p) =>
          InsertionAdds(arch, specs[0], p);
          InsertionsGrowExactly(xp, ApplyOp(arch, specs[0], p).0, specs[1..]);
      }
    }
  }

  /** Insertions keep every tag+attribute anchor locatable, whatever their own anchors are located by. */
  lemma InsertionsKeepAnchors(xp: XPath, arch: Node, specs: seq<Node>, anchor: Node)
    requires AllInsert(specs) && Find(arch, anchor).Some?
    ensures Find(Check(xp, arch, specs).0, anchor).Some?
  {
    InsertionsGrowExactly(xp, arch, specs);
    FoundIffOffered(arch, anchor);
    FoundIffOffered(Check(xp, arch, specs).0, anchor);
    var f :| f in Faces(arch) && FaceMatches(f, anchor);
    assert f in Faces(Check(xp, arch, specs).0);
  }

  /** When its turn comes, the operation is a sibling insertion located at the root. */
  ghost predicate LandsBesideRoot(xp: XPath, arch: Node, specs: seq<Node>, i: int) {
    0 <= i < |specs| && Locate(xp, Check(xp, arch, specs[..i]).0, specs[i]) == Some([]) && BesideRoot(specs[i], [])
  }

  ghost predicate SomeLandBesideRoot(xp: XPath, arch: Node, specs: seq<Node>) {
    exists i :: LandsBesideRoot(xp, arch, specs, i)
  }

  /** Turns seen from after the first operation. */
  lemma LaterTurn(xp: XPath, arch: Node, specs: seq<Node>, i: nat)
    requires 0 < i < |specs|
    ensures var t := match Locate(xp, arch, specs[0]) case None => arch case Some(p) => ApplyOp(arch, specs[0], p).0;
            LandsBesideRoot(xp, arch, specs, i) <==> LandsBesideRoot(xp, t, specs[1..], i - 1)
  {
    assert specs[..i][0] == specs[0] && specs[..i][1..] == specs[1..][..i - 1] && specs[1..][i - 1] == specs[i];
  }

  lemma LaterTurns(xp: XPath, arch: Node, specs: seq<Node>)
    requires specs != [] && !LandsBesideRoot(xp, arch, specs, 0)
    ensures var t := match Locate(xp, arch, specs[0]) case None => arch case Some(p) => ApplyOp(arch, specs[0], p).0;
            SomeLandBesideRoot(xp, arch, specs) <==> SomeLandBesideRoot(xp, t, specs[1..])
  {
    var t := match Locate(xp, arch, specs[0]) case None => arch case Some(p) => ApplyOp(arch, specs[0], p).0;
    if i :| LandsBesideRoot(xp, arch, specs, i) {
      LaterTurn(xp, arch, specs, i);
      assert LandsBesideRoot(xp, t, specs[1..], i - 1);
    }
    if i :| LandsBesideRoot(xp, t, specs[1..], i) {
      LaterTurn(xp, arch, specs, i + 1);
      assert LandsBesideRoot(xp, arch, specs, i + 1);
    }
  }

  /** A list of insertions fails to compose exactly when one of them lands beside the root. */
  lemma {:induction false} InsertionsRaiseIff(xp: XPath, arch: Node, specs: seq<Node>)
    requires AllInsert(specs)
    ensures Fold(xp, arch, specs).Raised? <==> SomeLandBesideRoot(xp, arch, specs)
    ensures !Fold(xp, arch, specs).Missing?
    decreases specs
  {
    if specs != [] {
      assert specs[..0] == [] && Check(xp, arch, specs[..0]).0 == arch;
      match Locate(xp, arch, specs[0]) {
        case None =>
          LaterTurns(xp, arch, specs);
          InsertionsRaiseIff(xp, arch, specs[1..]);
        case Some(p) =>
          InsertionAdds(arch, specs[0], p);
          if BesideRoot(specs[0], p) {
            assert LandsBesideRoot(xp, arch, specs, 0);
          } else {
            LaterTurns(xp, arch, specs);
            InsertionsRaiseIff(xp, ApplyOp(arch, specs[0], p).0, specs[1..]);
          }
      }
    }
  }

  // With anchors told by tag and attributes, both can be said without looking at any tree but the first.

  predicate AimsAtRoot(root: Node, spec: Node) {
    Position(spec) in {"after", "before"} && FaceMatches(FaceOf(root), spec)
  }

  lemma RootComesFirst(xp: XPath, t: Node, spec: Node)
    requires ByTag(spec) && Locate(xp, t, spec).Some?
    ensures BesideRoot(spec, Locate(xp, t, spec).value) <==> AimsAtRoot(t, spec)
  {
    FindsFirstMatch(t, spec);
    MatchesByFace(t, spec);
  }

  /** The pass told from the multiset of tags and attributes alone: an insertion is missed when nothing offers its
      anchor, has no effect when it aims beside the root, and adds its content otherwise. */
  ghost function Walk(root: Node, faces: multiset<Face>, specs: seq<Node>): (multiset<Face>, seq<Node>)
    decreases specs
  {
    if specs == [] then (faces, [])
    else if !Offers(faces, specs[0]) then
      var (f, missed) := Walk(root, faces, specs[1..]);
      (f, [specs[0]] + missed)
    else if AimsAtRoot(root, specs[0]) then Walk(root, faces, specs[1..])
    else Walk(root, faces + FacesAll(specs[0].kids), specs[1..])
  }

  lemma {:induction false} WalkIgnoresKids(root: Node, root': Node, faces: multiset<Face>, specs: seq<Node>)
    requires root'.tag == root.tag && root'.attrs == root.attrs
    ensures Walk(root, faces, specs) == Walk(root', faces, specs)
    decreases specs
  {
    if specs != [] {
      WalkIgnoresKids(root, root', faces, specs[1..]);
      WalkIgnoresKids(root, root', faces + FacesAll(specs[0].kids), specs[1..]);
    }
  }

  /** For insertions located by tag and attributes, the nodes of the final tree and the reported misses depend on the
      tags and attributes present, not on where anything sits: every anchor offered at its turn is found. */
  lemma {:induction false} InsertionsFollowFaces(xp: XPath, arch: Node, specs: seq<Node>)
    requires AllInsert(specs) && AllByTag(specs)
    ensures var (t, missed) := Check(xp, arch, specs);
            (Faces(t), missed) == Walk(arch, Faces(arch), specs) && t.tag == arch.tag && t.attrs == arch.attrs
    decreases specs
  {
    if specs != [] {
      var spec := specs[0];
      FoundIffOffered(arch, spec);
      match Locate(xp, arch, spec) {
        case None => InsertionsFollowFaces(xp, arch, specs[1..]);
        case Some(p) =>
          var t := ApplyOp(arch, spec, p).0;
          RootComesFirst(xp, arch, spec);
          InsertionAdds(arch, spec, p);
          InsertionsFollowFaces(xp, t, specs[1..]);
          WalkIgnoresKids(arch, t, Faces(t), specs[1..]);
      }
    }
  }

  // ------------------------------------------------------------------------
  // Composing a view through its ancestors
  // ------------------------------------------------------------------------

  datatype Kind = Record | Template

  type Key = (string, string)

  /** A view definition: its arch field or template element, and the view it inherits from. */
  datatype Def = Def(kind: Kind, container: Node, parent: Option<Key>)

  /** The target tree: its modules and the definitions found in them. */
  datatype Tree = Tree(modules: set<string>, views: map<Key, Def>)

  /** The arch of a view that inherits from nothing. */
  function RootArch(d: Def): Result {
    if d.kind == Template then Composed(d.container)
    else if d.container.kids == [] then Missing
    else Composed(d.container.kids[0])
  }

  function Compose(xp: XPath, tree: Tree, key: Key, depth: nat, trail: seq<Key>): Result
    decreases 9 - depth
  {
    if depth > 8 || key in trail then Missing
    else if key !in tree.views then Missing
    else
      var d := tree.views[key];
      if d.parent.None? then RootArch(d)
      else if d.parent.value.0 !in tree.modules then Missing
      else
        match Compose(xp, tree, d.parent.value, depth + 1, trail + [key])
        case Composed(base) => Fold(xp, base, OpsOf(d.container))
        case r => r
  }

  predicate Inherits(tree: Tree, k: Key, parent: Key) {
    k in tree.views && tree.views[k].parent == Some(parent) && parent.0 in tree.modules
  }

  predicate IsRoot(tree: Tree, k: Key) {
    k in tree.views && tree.views[k].parent.None?
  }

  /** A view and its ancestors, up to one that inherits from nothing. */
  predicate Lineage(tree: Tree, ks: seq<Key>) {
    ks != [] && IsRoot(tree, ks[|ks| - 1])
    && forall i :: 0 <= i < |ks| - 1 ==> Inherits(tree, ks[i], ks[i + 1])
  }

  predicate LineageOf(tree: Tree, key: Key, ks: seq<Key>) {
    Lineage(tree, ks) && ks[0] == key
  }

  ghost predicate ShortLineageOf(tree: Tree, key: Key, ks: seq<Key>) {
    LineageOf(tree, key, ks) && |ks| <= 9
  }

  /** The operations of the descendants of the root, the root's child first. */
  function OpsDown(tree: Tree, ks: seq<Key>): seq<Node>
    requires forall i :: 0 <= i < |ks| ==> ks[i] in tree.views
    decreases ks
  {
    if |ks| <= 1 then [] else OpsDown(tree, ks[1..]) + OpsOf(tree.views[ks[0]].container)
  }

  lemma LineageDefined(tree: Tree, ks: seq<Key>)
    requires Lineage(tree, ks)
    ensures forall i :: 0 <= i < |ks| ==> ks[i] in tree.views
  {
    forall i | 0 <= i < |ks| ensures ks[i] in tree.views {
      if i < |ks| - 1 { assert Inherits(tree, ks[i], ks[i + 1]); }
    }
  }

  lemma LineageTail(tree: Tree, ks: seq<Key>, n: nat)
    requires Lineage(tree, ks) && n < |ks|
    ensures LineageOf(tree, ks[n], ks[n..])
  {
    forall i | 0 <= i < |ks[n..]| - 1 ensures Inherits(tree, ks[n..][i], ks[n..][i + 1]) {
      assert ks[n..][i] == ks[n + i] && ks[n..][i + 1] == ks[n + i + 1];
      assert Inherits(tree, ks[n + i], ks[n + i + 1]);
    }
  }

  /** A view has at most one lineage. */
  lemma {:induction false} OneLineage(tree: Tree, ks: seq<Key>, ks': seq<Key>)
    requires Lineage(tree, ks) && LineageOf(tree, ks[0], ks')
    ensures ks == ks'
    decreases |ks|
  {
    if |ks| == 1 {
      assert |ks'| > 1 ==> Inherits(tree, ks'[0], ks'[1]);
    } else {
      assert Inherits(tree, ks[0], ks[1]);
      if |ks'| > 1 {
        assert Inherits(tree, ks'[0], ks'[1]);
        LineageTail(tree, ks, 1);
        LineageTail(tree, ks', 1);
        OneLineage(tree, ks[1..], ks'[1..]);
        assert ks == [ks[0]] + ks[1..] && ks' == [ks'[0]] + ks'[1..];
      }
    }
  }

  /** A lineage never visits a view twice, so the trail is only ever consulted on a cycle. */
  lemma LineageIsDistinct(tree: Tree, ks: seq<Key>)
    requires Lineage(tree, ks)
    ensures forall i, j :: 0 <= i < j < |ks| ==> ks[i] != ks[j]
  {
    forall i, j | 0 <= i < j < |ks| ensures ks[i] != ks[j] {
      if ks[i] == ks[j] {
        LineageTail(tree, ks, i);
        LineageTail(tree, ks, j);
        OneLineage(tree, ks[i..], ks[j..]);
        assert false;
      }
    }
  }

  /** The trail holds views that are not ahead. */
  ghost predicate Fresh(ks: seq<Key>, trail: seq<Key>) {
    forall i :: 0 <= i < |ks| ==> ks[i] !in trail
  }

  lemma {:induction false} ComposesAlong(xp: XPath, tree: Tree, ks: seq<Key>, depth: nat, trail: seq<Key>)
    requires Lineage(tree, ks) && depth + |ks| <= 9 && Fresh(ks, trail)
    ensures forall i :: 0 <= i < |ks| ==> ks[i] in tree.views
    ensures Compose(xp, tree, ks[0], depth, trail) == FromRoot(xp, tree, ks)
    decreases |ks|
  {
    LineageDefined(tree, ks);
    if |ks| > 1 {
      assert Inherits(tree, ks[0], ks[1]);
      LineageIsDistinct(tree, ks);
      LineageTail(tree, ks, 1);
      assert Fresh(ks[1..], trail + [ks[0]]);
      ComposesAlong(xp, tree, ks[1..], depth + 1, trail + [ks[0]]);
      FromRootStep(xp, tree, ks);
    }
  }

  /** The root's arch, then every descendant's operations in one pass from the root view down. */
  function FromRoot(xp: XPath, tree: Tree, ks: seq<Key>): Result
    requires ks != [] && forall i :: 0 <= i < |ks| ==> ks[i] in tree.views
  {
    match RootArch(tree.views[ks[|ks| - 1]])
    case Composed(arch) => Fold(xp, arch, OpsDown(tree, ks))
    case r => r
  }

  lemma FromRootStep(xp: XPath, tree: Tree, ks: seq<Key>)
    requires |ks| > 1 && forall i :: 0 <= i < |ks| ==> ks[i] in tree.views
    ensures FromRoot(xp, tree, ks) ==
            (match FromRoot(xp, tree, ks[1..])
             case Composed(base) => Fold(xp, base, OpsOf(tree.views[ks[0]].container))
             case r => r)
  {
    var root := RootArch(tree.views[ks[|ks| - 1]]);
    if root.Composed? {
      FoldConcat(xp, root.arch, OpsDown(tree, ks[1..]), OpsOf(tree.views[ks[0]].container));
    }
  }

  /** Anything but "missing" comes from a lineage within the depth limit. */
  lemma {:induction false} OnlyLineagesCompose(xp: XPath, tree: Tree, key: Key, depth: nat, trail: seq<Key>)
    returns (ks: seq<Key>)
    requires !Compose(xp, tree, key, depth, trail).Missing?
    ensures LineageOf(tree, key, ks) && depth + |ks| <= 9
    decreases 9 - depth
  {
    var d := tree.views[key];
    if d.parent.None? {
      ks := [key];
    } else {
      var up := OnlyLineagesCompose(xp, tree, d.parent.value, depth + 1, trail + [key]);
      ks := [key] + up;
      forall i | 0 <= i < |ks| - 1 ensures Inherits(tree, ks[i], ks[i + 1]) {
        if i > 0 {
          assert ks[i] == up[i - 1] && ks[i + 1] == up[i];
          assert Inherits(tree, up[i - 1], up[i]);
        }
      }
    }
  }

  /** Composing a view is one pass over its ancestors' operations, the root's first; it is missing exactly when
      there is no chain of at most nine known views up to a root with an arch. */
  lemma ComposeIsOnePass(xp: XPath, tree: Tree, key: Key)
    ensures forall ks :: ShortLineageOf(tree, key, ks) ==>
              (forall i :: 0 <= i < |ks| ==> ks[i] in tree.views)
              && Compose(xp, tree, key, 0, []) == FromRoot(xp, tree, ks)
    ensures (!exists ks :: ShortLineageOf(tree, key, ks)) ==> Compose(xp, tree, key, 0, []).Missing?
  {
    forall ks | ShortLineageOf(tree, key, ks)
      ensures (forall i :: 0 <= i < |ks| ==> ks[i] in tree.views) &&
        Compose(xp, tree, key, 0, []) == FromRoot(xp, tree, ks)
    {
      ComposesAlong(xp, tree, ks, 0, []);
    }
    if !Compose(xp, tree, key, 0, []).Missing? {
      var ks := OnlyLineagesCompose(xp, tree, key, 0, []);
      assert ShortLineageOf(tree, key, ks);
    }
  }

  /** Where a view's operations stand: below its container, or below a lone bare `<data>` in it. */
  lemma OperationsOfContainer(tag: string, attrs: map<string, string>, text: Option<string>, data: Node, ops: seq<Node>)
    ensures data.tag == "data" && "position" !in data.attrs ==> OpsOf(Node(tag, attrs, text, [data])) == data.kids
    ensures data.tag != "data" || "position" in data.attrs ==> OpsOf(Node(tag, attrs, text, [data])) == [data]
    ensures |ops| != 1 ==> OpsOf(Node(tag, attrs, text, ops)) == ops
  {
    assert |[data]| == 1;
  }

  /** A view without a parent composes to its template element, or to the first element of its arch field if any. */
  lemma RootComposes(xp: XPath, tree: Tree, key: Key)
    requires key in tree.views && tree.views[key].parent == None
    ensures var c, r := tree.views[key].container, Compose(xp, tree, key, 0, []);
            if tree.views[key].kind == Template then r == Composed(c)
            else if c.kids == [] then r == Missing
            else r == Composed(c.kids[0])
  {
  }

  /** When every ancestor only inserts, the composed view has the root view's nodes and what was located, and every
      tag+attribute anchor of the root view is still there; it raises exactly when an insertion lands beside the
      root. */
  lemma ComposedKeepsAnchors(xp: XPath, tree: Tree, key: Key, ks: seq<Key>, anchor: Node)
    requires ShortLineageOf(tree, key, ks)
    requires forall i :: 0 <= i < |ks| ==> ks[i] in tree.views
    requires AllInsert(OpsDown(tree, ks))
    requires RootArch(tree.views[ks[|ks| - 1]]).Composed?
    ensures var root, r := RootArch(tree.views[ks[|ks| - 1]]).arch, Compose(xp, tree, key, 0, []);
            if SomeLandBesideRoot(xp, root, OpsDown(tree, ks)) then r.Raised?
            else r.Composed? && Faces(r.arch) == Faces(root) + AllAdded(xp, root, OpsDown(tree, ks))
                 && (Find(root, anchor).Some? ==> Find(r.arch, anchor).Some?)
  {
    var root, ops := RootArch(tree.views[ks[|ks| - 1]]).arch, OpsDown(tree, ks);
    ComposeIsOnePass(xp, tree, key);
    InsertionsRaiseIff(xp, root, ops);
    FoldAgreesWithCheck(xp, root, ops);
    InsertionsGrowExactly(xp, root, ops);
    if Find(root, anchor).Some? { InsertionsKeepAnchors(xp, root, ops, anchor); }
  }

  // ------------------------------------------------------------------------
  // The code's own loops
  // ------------------------------------------------------------------------

  /** Inserting one more element right behind those just inserted. */
  lemma {:induction false} SpliceOneMore(t: Node, p: Path, lo: nat, hi: nat, content: seq<Node>, c: Node)
    requires ValidPath(t, p) && lo <= hi <= |NodeAt(t, p).kids|
    ensures var t' := Splice(t, p, lo, hi, content);
            ValidPath(t', p) && lo + |content| <= |NodeAt(t', p).kids|
            && Splice(t', p, lo + |content|, lo + |content|, [c]) == Splice(t, p, lo, hi, content + [c])
    decreases p
  {
    if p == [] {
      var kids := t.kids[..lo] + content + t.kids[hi..];
      assert kids[..lo + |content|] == t.kids[..lo] + content;
      assert kids[lo + |content|..] == t.kids[hi..];
      assert kids[..lo + |content|] + [c] + kids[lo + |content|..] == t.kids[..lo] + (content + [c]) + t.kids[hi..];
    } else {
      var kid := t.kids[p[0]];
      SpliceOneMore(kid, p[1..], lo, hi, content, c);
      var t' := Splice(t, p, lo, hi, content);
      assert t'.kids[p[0]] == Splice(kid, p[1..], lo, hi, content);
    }
  }

  lemma {:induction false} SpliceNothing(t: Node, p: Path, i: nat)
    requires ValidPath(t, p) && i <= |NodeAt(t, p).kids|
    ensures Splice(t, p, i, i, []) == t
    decreases p
  {
    if p == [] {
      assert t.kids[..i] + [] + t.kids[i..] == t.kids;
    } else {
      SpliceNothing(t.kids[p[0]], p[1..], i);
      assert t.kids[p[0] := t.kids[p[0]]] == t.kids;
    }
  }

  /** The loop over `<attribute>` elements; an exception leaves what was set before it. */
  method SetEach(before: Node, atts: seq<Node>) returns (n: Node, raised: bool)
    ensures (n, raised) == SetAttributes(before, atts)
  {
    n, raised := before, false;
    var i := 0;
    assert atts[0..] == atts;
    while i < |atts| && !raised
      invariant i <= |atts|
      invariant SetAttributes(before, atts) == if raised then (n, true) else SetAttributes(n, atts[i..])
    {
      var a := atts[i];
      assert atts[i..][0] == a && atts[i..][1..] == atts[i + 1..];
      if "name" !in a.attrs {
        raised := true;
      } else if a.text.None? && !Given(a, "add") && !Given(a, "remove") {
        n := n.(attrs := n.attrs - {a.attrs["name"]});
      } else {
        n := n.(attrs := n.attrs[a.attrs["name"] := if a.text.Some? then a.text.value else ""]);
      }
      i := i + 1;
    }
  }

  /** A deep copy of an arch, edited in place. */
  class Arch {
    var root: Node

    constructor (t: Node)
      ensures root == t
    {
      root := t;
    }

    /** parent.insert for each element of the content in turn, from index `lo`, after taking out `lo..hi`. */
    method InsertAll(p: Path, lo: nat, hi: nat, content: seq<Node>)
      requires ValidPath(root, p) && lo <= hi <= |NodeAt(root, p).kids|
      modifies this
      ensures root == Splice(old(root), p, lo, hi, content)
    {
      root := Splice(root, p, lo, hi, []);
      ghost var t := old(root);
      for i := 0 to |content|
        invariant root == Splice(t, p, lo, hi, content[..i])
      {
        SpliceOneMore(t, p, lo, hi, content[..i], content[i]);
        assert content[..i + 1] == content[..i] + [content[i]];
        root := Splice(root, p, lo + i, lo + i, [content[i]]);
      }
      assert content[..|content|] == content;
    }

    method Apply(spec: Node, p: Path) returns (raised: bool)
      requires ValidPath(root, p)
      modifies this
      ensures (root, raised) == ApplyOp(old(root), spec, p)
    {
      var pos := Position(spec);
      raised := false;
      if pos == "attributes" {
        var n: Node;
        n, raised := SetEach(NodeAt(root, p), Descendants(spec, "attribute"));
        root := Substitute(root, p, n);
      } else if pos == "inside" {
        InsertAll(p, |NodeAt(root, p).kids|, |NodeAt(root, p).kids|, spec.kids);
      } else if pos == "after" || pos == "before" {
        if p == [] {
          raised := true;
        } else {
          UpIsValid(root, p);
          var idx := Last(p) + if pos == "after" then 1 else 0;
          InsertAll(Up(p), idx, idx, spec.kids);
        }
      } else if pos == "replace" && p != [] {
        UpIsValid(root, p);
        InsertAll(Up(p), Last(p), Last(p) + 1, spec.kids);
      }
    }

    /** The anchor check's loop over one view's operations. */
    method CheckAll(xp: XPath, specs: seq<Node>) returns (missed: seq<Node>)
      modifies this
      ensures (root, missed) == Check(xp, old(root), specs)
    {
      missed := [];
      ghost var t := root;
      assert specs[0..] == specs && [] + Check(xp, root, specs).1 == Check(xp, root, specs).1;
      for i := 0 to |specs|
        invariant Check(xp, t, specs) == (Check(xp, root, specs[i..]).0, missed + Check(xp, root, specs[i..]).1)
      {
        assert specs[i..][0] == specs[i] && specs[i..][1..] == specs[i + 1..];
        match Locate(xp, root, specs[i]) {
          case None =>
            assert missed + ([specs[i]] + Check(xp, root, specs[i + 1..]).1) ==
              (missed + [specs[i]]) + Check(xp, root, specs[i + 1..]).1;
            missed := missed + [specs[i]];
          case Some(p) =>
            var raised := Apply(specs[i], p);
        }
      }
      assert specs[|specs|..] == [] && missed + [] == missed;
    }
  }

  /** Recursive composition, each level editing the tree it got from the level above. */
  method ComposeView(xp: XPath, tree: Tree, key: Key, depth: nat, trail: seq<Key>) returns (r: Result)
    ensures r == Compose(xp, tree, key, depth, trail)
    decreases 9 - depth
  {
    if depth > 8 || key in trail || key !in tree.views {
      return Missing;
    }
    var d := tree.views[key];
    if d.parent.None? {
      return RootArch(d);
    }
    if d.parent.value.0 !in tree.modules {
      return Missing;
    }
    r := ComposeView(xp, tree, d.parent.value, depth + 1, trail + [key]);
    if !r.Composed? {
      return;
    }
    var base := new Arch(r.arch);
    var specs := OpsOf(d.container);
    assert specs[0..] == specs;
    for i := 0 to |specs|
      invariant Fold(xp, r.arch, specs) == Fold(xp, base.root, specs[i..])
    {
      assert specs[i..][0] == specs[i] && specs[i..][1..] == specs[i + 1..];
      var p := Locate(xp, base.root, specs[i]);
      if p.Some? {
        var raised := base.Apply(specs[i], p.value);
        if raised {
          return Raised;
        }
      }
    }
    r := Composed(base.root);
  }

  /** What the fleet check says of one inheriting view. */
  datatype Verdict = NonCoreParent | NotComposable | Misses(specs: seq<Node>) | Failed

  method CheckView(xp: XPath, tree: Tree, parent: Key, container: Node) returns (v: Verdict)
    ensures v.NonCoreParent? <==> parent.0 !in tree.modules
    ensures v.NotComposable? ==> Compose(xp, tree, parent, 0, []).Missing?
    ensures v.Failed? ==> Compose(xp, tree, parent, 0, []).Raised?
    ensures v.Misses? ==> (
      var r := Compose(xp, tree, parent, 0, []);
      r.Composed? && v.specs == Check(xp, r.arch, OpsOf(container)).1)
  {
    if parent.0 !in tree.modules {
      return NonCoreParent;
    }
    var r := ComposeView(xp, tree, parent, 0, []);
    match r {
      case Missing => v := NotComposable;
      case Raised => v := Failed;
      case Composed(base) =>
        var arch := new Arch(base);
        var missed := arch.CheckAll(xp, OpsOf(container));
        v := Misses(missed);
    }
  }

  /** For a view that only inserts, by tag and attributes, the anchors reported missing are exactly those no node
      offers at their turn, in the composed parent or in content inserted before. */
  lemma MissesAreUnoffered(xp: XPath, tree: Tree, parent: Key, container: Node)
    requires AllInsert(OpsOf(container)) && AllByTag(OpsOf(container)) && Compose(xp, tree, parent, 0, []).Composed?
    ensures var base := Compose(xp, tree, parent, 0, []).arch;
            Check(xp, base, OpsOf(container)).1 == Walk(base, Faces(base), OpsOf(container)).1
  {
    InsertionsFollowFaces(xp, Compose(xp, tree, parent, 0, []).arch, OpsOf(container));
  }
}
