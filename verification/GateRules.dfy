/** The denial rules over the facts of one proposed ref transaction. */
module GateRules {
  import opened Graph
  import opened Objects

  datatype Role = AdminRole | MemberRole

  datatype RefUpdate = RefUpdate(name: string, before: Option<Oid>, after: Oid)

  /** `parent` pairs a child with a parent, `signedBy` a commit with the key its signature verified under, `anchor` and
      `context` an entity commit with an object it embeds. */
  datatype Facts = Facts(
    refUpdate: seq<RefUpdate>,
    parent: seq<(Oid, Oid)>,
    signedBy: seq<(Oid, string)>,
    member: seq<(string, Role)>,
    anchor: seq<(Oid, Oid)>,
    context: seq<(Oid, Oid)>,
    objectExists: seq<Oid>)

  datatype Violation =
    | NotFastForward(name: string)
    | ParentedGenesis(name: string)
    | SecondRoot(name: string, oid: Oid)
    | Unsigned(name: string, oid: Oid)
    | DanglingAnchor(name: string, oid: Oid)
    | DanglingContext(name: string, oid: Oid)
    | NotAdmin(name: string, oid: Oid)

  const EFFECTS := "refs/meta/effects/"

  // -- what the rules mean ------------------------------------------------------------------

  function ParentsIn(parent: seq<(Oid, Oid)>, c: Oid): (ps: seq<Oid>)
    ensures forall p :: p in ps <==> (c, p) in parent
  {
    if parent == [] then []
    else (if parent[0].0 == c then [parent[0].1] else []) + ParentsIn(parent[1..], c)
  }

  /** The commit graph the parent facts describe. */
  function FactGraph(parent: seq<(Oid, Oid)>): (g: Commits)
    ensures forall c :: c in g ==> g[c] == ParentsIn(parent, c)
    ensures forall c, p :: (c, p) in parent ==> c in g
    ensures forall c :: c in g ==> g[c] != []
  {
    var children := set e | e in parent :: e.0;
    assert forall c :: c in children ==> exists e :: e in parent && e.0 == c && (c, e.1) in parent;
    map c | c in children :: ParentsIn(parent, c)
  }

  /** A parent, a parent's parent, and so on. */
  ghost predicate Ancestor(g: Commits, c: Oid, a: Oid) {
    c in g && exists p :: p in g[c] && Reaches(g, p, a)
  }

  ghost predicate Covered(f: Facts, name: string, c: Oid) {
    exists u :: u in f.refUpdate && u.name == name && u.before.Some?
                && (c == u.before.value || Ancestor(FactGraph(f.parent), u.before.value, c))
  }

  ghost predicate Introduced(f: Facts, name: string, c: Oid) {
    && (exists u :: u in f.refUpdate && u.name == name && (c == u.after || Ancestor(FactGraph(f.parent), u.after, c)))
    && !Covered(f, name, c)
  }

  predicate MemberSigned(f: Facts, c: Oid) {
    exists s, m :: s in f.signedBy && m in f.member && s.0 == c && s.1 == m.0
  }

  predicate AdminSigned(f: Facts, c: Oid) {
    exists s, m :: s in f.signedBy && m in f.member && s.0 == c && s.1 == m.0 && m.1 == AdminRole
  }

  /** Which rows the denial rules derive. */
  ghost predicate Denies(f: Facts, v: Violation) {
    var g := FactGraph(f.parent);
    match v
    case NotFastForward(r) =>
      exists u :: u in f.refUpdate && u.name == r && u.before.Some? && u.before.value != u.after
                  && !Ancestor(g, u.after, u.before.value)
    case ParentedGenesis(r) => exists u :: u in f.refUpdate && u.name == r && u.before.None? && u.after in g
    case SecondRoot(r, c) =>
      (exists u :: u in f.refUpdate && u.name == r && u.before.Some?) && Introduced(f, r, c) && c !in g
    case Unsigned(r, c) => Introduced(f, r, c) && !MemberSigned(f, c)
    case DanglingAnchor(r, t) => t !in f.objectExists && exists a :: a in f.anchor && a.1 == t && Introduced(f, r, a.0)
    case DanglingContext(r, t) =>
      t !in f.objectExists && exists a :: a in f.context && a.1 == t && Introduced(f, r, a.0)
    case NotAdmin(r, c) => EFFECTS <= r && Introduced(f, r, c) && !AdminSigned(f, c)
  }

  // -- the fixpoint --------------------------------------------------------------------------

  /** One application of the transitive rule: an edge, then a derived pair. */
  function Compose(edges: set<(Oid, Oid)>, anc: set<(Oid, Oid)>): (more: set<(Oid, Oid)>) {
    set e, f | e in edges && f in anc && e.1 == f.0 :: (e.0, f.1)
  }

  function Edges(parent: seq<(Oid, Oid)>): (edges: set<(Oid, Oid)>)
    ensures forall e :: e in edges <==> e in parent
  {
    set e | e in parent
  }

  ghost function Span(edges: set<(Oid, Oid)>): set<(Oid, Oid)> {
    set e, f | e in edges && f in edges :: (e.0, f.1)
  }

  /** What the rules no longer add to holds every path. */
  lemma {:induction false} FixpointHoldsPaths(parent: seq<(Oid, Oid)>, anc: set<(Oid, Oid)>, p: seq<Oid>)
    requires Edges(parent) <= anc && Compose(Edges(parent), anc) <= anc
    requires IsPath(FactGraph(parent), p) && |p| >= 2
    ensures (p[0], p[|p| - 1]) in anc
  {
    assert (p[0], p[1]) in Edges(parent);
    if |p| > 2 {
      FixpointHoldsPaths(parent, anc, p[1..]);
      assert (p[1], p[|p| - 1]) in anc;
      assert (p[0], p[|p| - 1]) in Compose(Edges(parent), anc);
    }
  }

  lemma FixpointHoldsAncestors(parent: seq<(Oid, Oid)>, anc: set<(Oid, Oid)>, c: Oid, a: Oid)
    requires Edges(parent) <= anc && Compose(Edges(parent), anc) <= anc
    requires Ancestor(FactGraph(parent), c, a)
    ensures (c, a) in anc
  {
    hide Compose;
    var g := FactGraph(parent);
    var q :| q in g[c] && Reaches(g, q, a);
    var p :| IsPath(g, p) && p[0] == q && p[|p| - 1] == a;
    assert ([c] + p)[1..] == p && IsPath(g, [c] + p);
    FixpointHoldsPaths(parent, anc, [c] + p);
  }

  ghost predicate Derivable(parent: seq<(Oid, Oid)>, anc: set<(Oid, Oid)>) {
    forall e :: e in anc ==> Ancestor(FactGraph(parent), e.0, e.1)
  }

  lemma EdgesDerivable(parent: seq<(Oid, Oid)>)
    ensures Derivable(parent, Edges(parent)) && Edges(parent) <= Span(Edges(parent))
  {
    forall e | e in Edges(parent)
      ensures Ancestor(FactGraph(parent), e.0, e.1) && e in Span(Edges(parent))
    {
      ReachesSelf(FactGraph(parent), e.1);
      assert (e.0, e.1) == e;
    }
  }

  lemma ComposeDerivable(parent: seq<(Oid, Oid)>, anc: set<(Oid, Oid)>)
    requires Derivable(parent, anc) && anc <= Span(Edges(parent))
    ensures Derivable(parent, Compose(Edges(parent), anc)) && Compose(Edges(parent), anc) <= Span(Edges(parent))
  {
    hide FactGraph, Ancestor;
    forall x | x in Compose(Edges(parent), anc)
      ensures Ancestor(FactGraph(parent), x.0, x.1) && x in Span(Edges(parent))
    {
      var e, f :| e in Edges(parent) && f in anc && e.1 == f.0 && x == (e.0, f.1);
      EdgeThenAncestor(parent, e.0, e.1, f.1);
    }
  }

  lemma EdgeThenAncestor(parent: seq<(Oid, Oid)>, c: Oid, p: Oid, a: Oid)
    requires (c, p) in parent && Ancestor(FactGraph(parent), p, a)
    ensures Ancestor(FactGraph(parent), c, a)
  {
    var g := FactGraph(parent);
    var q :| q in g[p] && Reaches(g, q, a);
    ReachesViaParent(g, p, q, a);
  }

  /** The ancestry relation: the rules applied until they derive nothing new. */
  method Ancestors(parent: seq<(Oid, Oid)>) returns (anc: set<(Oid, Oid)>)
    ensures forall c, a :: (c, a) in anc <==> Ancestor(FactGraph(parent), c, a)
  {
    hide FactGraph, Ancestor, Compose, Span;
    var edges := Edges(parent);
    anc := edges;
    EdgesDerivable(parent);
    var more := Compose(edges, anc);
    while !(more <= anc)
      invariant edges <= anc <= Span(edges) && Derivable(parent, anc) && more == Compose(edges, anc)
      decreases Span(edges) - anc
    {
      ComposeDerivable(parent, anc);
      anc := anc + more;
      more := Compose(edges, anc);
    }
    forall c, a
      ensures (c, a) in anc <==> Ancestor(FactGraph(parent), c, a)
    {
      if Ancestor(FactGraph(parent), c, a) {
        FixpointHoldsAncestors(parent, anc, c, a);
      }
    }
  }

  method Push(out: seq<Violation>, rows: set<Violation>) returns (more: seq<Violation>)
    ensures forall v :: v in more <==> v in out || v in rows
  {
    more := out;
    var left := rows;
    while left != {}
      invariant left <= rows
      invariant forall v :: v in more <==> v in out || v in rows - left
      decreases |left|
    {
      var v :| v in left;
      more := more + [v];
      left := left - {v};
    }
  }

  method CoveredRows(f: Facts, anc: set<(Oid, Oid)>) returns (covered: set<(string, Oid)>)
    requires forall c, a :: (c, a) in anc <==> Ancestor(FactGraph(f.parent), c, a)
    ensures forall r, c :: (r, c) in covered <==> Covered(f, r, c)
  {
    hide Ancestor, FactGraph;
    var tips := set u | u in f.refUpdate && u.before.Some? :: (u.name, u.before.value);
    var below := set u, e | u in f.refUpdate && u.before.Some? && e in anc && e.0 == u.before.value :: (u.name, e.1);
    covered := tips + below;
    forall r, c
      ensures (r, c) in covered <==> Covered(f, r, c)
    {
      if (r, c) in covered {
        var u :| u in f.refUpdate && u.before.Some? && u.name == r
          && (c == u.before.value || (u.before.value, c) in anc);
      } else if Covered(f, r, c) {
        var u :| u in f.refUpdate && u.name == r && u.before.Some?
                 && (c == u.before.value || Ancestor(FactGraph(f.parent), u.before.value, c));
      }
    }
  }

  /** The rows a ref's updates introduce. */
  method IntroducedRows(f: Facts, anc: set<(Oid, Oid)>) returns (rows: set<(string, Oid)>)
    requires forall c, a :: (c, a) in anc <==> Ancestor(FactGraph(f.parent), c, a)
    ensures forall r, c :: (r, c) in rows <==> Introduced(f, r, c)
  {
    hide Ancestor, FactGraph, Covered;
    var covered := CoveredRows(f, anc);
    var tips := set u | u in f.refUpdate && (u.name, u.after) !in covered :: (u.name, u.after);
    var below := set u, e | u in f.refUpdate && e in anc && e.0 == u.after && (u.name, e.1) !in covered
          :: (u.name, e.1);
    rows := tips + below;
    forall r, c
      ensures (r, c) in rows <==> Introduced(f, r, c)
    {
      assert (r, c) in covered <==> Covered(f, r, c);
      if (r, c) in rows {
        var u :| u in f.refUpdate && u.name == r && (c == u.after || (u.after, c) in anc);
      } else if Introduced(f, r, c) {
        var u :| u in f.refUpdate && u.name == r && (c == u.after || Ancestor(FactGraph(f.parent), u.after, c));
      }
    }
  }

  method FastForwardRows(f: Facts, anc: set<(Oid, Oid)>) returns (rows: set<Violation>)
    requires forall c, a :: (c, a) in anc <==> Ancestor(FactGraph(f.parent), c, a)
    ensures forall v :: v in rows <==> v.NotFastForward? && Denies(f, v)
  {
    hide Ancestor, FactGraph, Introduced;
    rows := set u | u in f.refUpdate && u.before.Some? && u.before.value != u.after && (u.after, u.before.value) !in anc
      :: NotFastForward(u.name);
  }

  method GenesisRows(f: Facts, hasParent: set<Oid>) returns (rows: set<Violation>)
    requires hasParent == FactGraph(f.parent).Keys
    ensures forall v :: v in rows <==> v.ParentedGenesis? && Denies(f, v)
  {
    hide Ancestor, FactGraph, Introduced;
    rows := set u | u in f.refUpdate && u.before.None? && u.after in hasParent :: ParentedGenesis(u.name);
  }

  method RootRows(f: Facts, introduced: set<(string, Oid)>, hasParent: set<Oid>) returns (rows: set<Violation>)
    requires hasParent == FactGraph(f.parent).Keys
    requires forall r, c :: (r, c) in introduced <==> Introduced(f, r, c)
    ensures forall v :: v in rows <==> v.SecondRoot? && Denies(f, v)
  {
    hide Ancestor, FactGraph, Introduced;
    rows := set u, i | u in f.refUpdate && u.before.Some? && i in introduced && i.0 == u.name && i.1 !in hasParent
      :: SecondRoot(i.0, i.1);
    forall v: Violation | v.SecondRoot?
      ensures v in rows <==> Denies(f, v)
    {
      assert Introduced(f, v.name, v.oid) <==> (v.name, v.oid) in introduced;
    }
  }

  method UnsignedRows(f: Facts, introduced: set<(string, Oid)>) returns (rows: set<Violation>)
    requires forall r, c :: (r, c) in introduced <==> Introduced(f, r, c)
    ensures forall v :: v in rows <==> v.Unsigned? && Denies(f, v)
  {
    hide FactGraph, Introduced, MemberSigned;
    rows := set i | i in introduced && !MemberSigned(f, i.1) :: Unsigned(i.0, i.1);
    forall v: Violation | v.Unsigned?
      ensures v in rows <==> Denies(f, v)
    {
      assert Introduced(f, v.name, v.oid) <==> (v.name, v.oid) in introduced;
    }
  }

  method AnchorRows(f: Facts, introduced: set<(string, Oid)>) returns (rows: set<Violation>)
    requires forall r, c :: (r, c) in introduced <==> Introduced(f, r, c)
    ensures forall v :: v in rows <==> v.DanglingAnchor? && Denies(f, v)
  {
    hide FactGraph, Introduced;
    rows := set i, a | i in introduced && a in f.anchor && a.0 == i.1 && a.1 !in f.objectExists
      :: DanglingAnchor(i.0, a.1);
    forall v: Violation | v.DanglingAnchor?
      ensures v in rows <==> Denies(f, v)
    {
      assert forall a :: a in f.anchor ==> (Introduced(f, v.name, a.0) <==> (v.name, a.0) in introduced);
    }
  }

  method ContextRows(f: Facts, introduced: set<(string, Oid)>) returns (rows: set<Violation>)
    requires forall r, c :: (r, c) in introduced <==> Introduced(f, r, c)
    ensures forall v :: v in rows <==> v.DanglingContext? && Denies(f, v)
  {
    hide FactGraph, Introduced;
    rows := set i, a | i in introduced && a in f.context && a.0 == i.1 && a.1 !in f.objectExists
      :: DanglingContext(i.0, a.1);
    forall v: Violation | v.DanglingContext?
      ensures v in rows <==> Denies(f, v)
    {
      assert forall a :: a in f.context ==> (Introduced(f, v.name, a.0) <==> (v.name, a.0) in introduced);
    }
  }

  method AdminRows(f: Facts, introduced: set<(string, Oid)>) returns (rows: set<Violation>)
    requires forall r, c :: (r, c) in introduced <==> Introduced(f, r, c)
    ensures forall v :: v in rows <==> v.NotAdmin? && Denies(f, v)
  {
    hide FactGraph, Introduced, AdminSigned;
    rows := set i | i in introduced && EFFECTS <= i.0 && !AdminSigned(f, i.1) :: NotAdmin(i.0, i.1);
    forall v: Violation | v.NotAdmin?
      ensures v in rows <==> Denies(f, v)
    {
      assert Introduced(f, v.name, v.oid) <==> (v.name, v.oid) in introduced;
    }
  }

  /** Run every denial rule; what comes out is exactly what the rules derive. */
  method Gate(f: Facts) returns (out: seq<Violation>)
    ensures forall v :: v in out <==> Denies(f, v)
  {
    hide Ancestor, FactGraph, Introduced, Denies;
    var anc := Ancestors(f.parent);
    var introduced := IntroducedRows(f, anc);
    var hasParent := set e | e in f.parent :: e.0;
    HasParentMeans(f.parent);
    var rows := FastForwardRows(f, anc);
    out := Push([], rows);
    rows := GenesisRows(f, hasParent);
    out := Push(out, rows);
    rows := RootRows(f, introduced, hasParent);
    out := Push(out, rows);
    rows := UnsignedRows(f, introduced);
    out := Push(out, rows);
    rows := AnchorRows(f, introduced);
    out := Push(out, rows);
    rows := ContextRows(f, introduced);
    out := Push(out, rows);
    rows := AdminRows(f, introduced);
    out := Push(out, rows);
  }

  lemma HasParentMeans(parent: seq<(Oid, Oid)>)
    ensures (set e | e in parent :: e.0) == FactGraph(parent).Keys
  {
  }
}
