/** The watched directory `live/`, and the single-file edits a watcher can observe in it. */
module Live {
  import opened Acme

  datatype Node = File(data: Bytes, mode: nat) | Dir

  type Tree = map<string, Node>

  /** Mode 0600. */
  const PRIVATE: nat := 6 * 64

  /** A rename of a finished private file into the directory, or the removal of a file. */
  datatype Edit = Put(name: string, data: Bytes) | Del(name: string)

  function Apply(t: Tree, e: Edit): Tree {
    match e
    case Put(name, data) => t[name := File(data, PRIVATE)]
    case Del(name) => t - {name}
  }

  function Replay(t: Tree, edits: seq<Edit>): Tree {
    if edits == [] then t else Apply(Replay(t, edits[..|edits| - 1]), edits[|edits| - 1])
  }

  /** What a reader of the directory finds: the regular files and their bytes. */
  type View = map<string, Bytes>

  ghost function ViewOf(t: Tree): View {
    map n | n in t && t[n].File? :: t[n].data
  }

  ghost function Touched(edits: seq<Edit>): set<string> {
    set e | e in edits :: e.name
  }

  /** The names at which two views differ. */
  ghost function Differing(a: View, b: View): set<string> {
    set n | n in a.Keys + b.Keys && (n !in a || n !in b || a[n] != b[n])
  }

  lemma {:induction false} ReplayConcat(t: Tree, a: seq<Edit>, b: seq<Edit>)
    ensures Replay(t, a + b) == Replay(Replay(t, a), b)
    decreases |b|
  {
    if b == [] {
      assert a + b == a;
    } else {
      assert (a + b)[..|a + b| - 1] == a + b[..|b| - 1];
      ReplayConcat(t, a, b[..|b| - 1]);
    }
  }

  lemma ReplayOne(t: Tree, e: Edit)
    ensures Replay(t, [e]) == Apply(t, e)
  {
    assert [e][..0] == [];
  }

  lemma {:induction false} TouchedCount(edits: seq<Edit>)
    ensures |Touched(edits)| <= |edits|
    decreases |edits|
  {
    if edits != [] {
      var init, last := edits[..|edits| - 1], edits[|edits| - 1];
      TouchedCount(init);
      assert edits == init + [last];
      assert Touched(edits) == Touched(init) + {last.name};
    }
  }

  lemma {:induction false} DifferingTouched(t: Tree, edits: seq<Edit>)
    ensures Differing(ViewOf(t), ViewOf(Replay(t, edits))) <= Touched(edits)
    decreases |edits|
  {
    if edits != [] {
      var init, last := edits[..|edits| - 1], edits[|edits| - 1];
      DifferingTouched(t, init);
      assert edits == init + [last];
      assert Touched(edits) == Touched(init) + {last.name};
      var mid, end := ViewOf(Replay(t, init)), ViewOf(Replay(t, edits));
      forall n | n != last.name ensures (n in mid <==> n in end) && (n in mid ==> mid[n] == end[n]) {
      }
    }
  }

  /** One file at a time, no sequence of edits gets from one view to another in fewer steps
      than there are names at which they differ. */
  lemma EditsAtLeast(t: Tree, edits: seq<Edit>)
    ensures |edits| >= |Differing(ViewOf(t), ViewOf(Replay(t, edits)))|
  {
    var d := Differing(ViewOf(t), ViewOf(Replay(t, edits)));
    DifferingTouched(t, edits);
    TouchedCount(edits);
    SubsetSize(d, Touched(edits));
  }

  lemma {:induction false} SubsetSize(a: set<string>, b: set<string>)
    requires a <= b
    ensures |a| <= |b|
    decreases |a|
  {
    if a != {} {
      var x :| x in a;
      SubsetSize(a - {x}, b - {x});
    }
  }
}
