/** Assigning meshes to Plane-Maker body slots before the bodies are
    written: each row names a mesh, a body index and a display name; rows
    for unknown meshes and repeated indices are skipped, and the indices
    kept must be exactly 0..N-1. */
module BodyAssign {
  import opened Wrappers
  import opened Text
  import opened Seqs

  /** A row of the assignment table. */
  datatype Row = Row(meshName: string, bodyIndex: int, pmName: string)

  /** What a kept row contributes to its body slot. */
  datatype Assignment = Assignment(meshName: string, pmName: string)

  const NothingAssigned: Error := Aborted("No valid bodies assigned; nothing to write.")
  const NotContiguous: Error := Aborted("Body indices must be contiguous 0..N without gaps.")

  /** `row["pm_name"].strip() or mesh_name` */
  function PmName(row: Row): (r: string)
    ensures |r| > 0 || row.meshName == []
  {
    var name := Strip(row.pmName);
    if name == [] then row.meshName else name
  }

  function AssignmentOf(row: Row): Assignment {
    Assignment(row.meshName, PmName(row))
  }

  /** A row that would claim slot `i`: its mesh is known and its index is `i`. */
  function Claims(known: set<string>, i: int): Row -> bool {
    (row: Row) => row.meshName in known && row.bodyIndex == i
  }

  /** `bodies_by_index` after the loop over the rows. */
  function Assigned(rows: seq<Row>, known: set<string>): map<int, Assignment>
    decreases |rows|
  {
    if |rows| == 0 then map[]
    else
      var m := Assigned(rows[..|rows| - 1], known);
      var row := rows[|rows| - 1];
      if row.meshName !in known || row.bodyIndex in m then m
      else m[row.bodyIndex := AssignmentOf(row)]
  }

  /** Every slot from 0 up to the number of slots is taken. */
  predicate Contiguous(m: map<int, Assignment>) {
    forall i :: 0 <= i < |m| ==> i in m
  }

  /** The assignments in slot order, or why there are none. */
  function OrderBodies(rows: seq<Row>, known: set<string>): Result<seq<Assignment>> {
    var m := Assigned(rows, known);
    if |m| == 0 then Err(NothingAssigned)
    else if !Contiguous(m) then Err(NotContiguous)
    else Ok(seq(|m|, i requires 0 <= i < |m| && Contiguous(m) => m[i]))
  }

  /** A slot is taken exactly when some row claims it, and then by the
      first row that does. */
  lemma {:induction false} AssignedFirst(rows: seq<Row>, known: set<string>, i: int)
    ensures i in Assigned(rows, known) <==> FirstWhere(rows, Claims(known, i)).Some?
    ensures i in Assigned(rows, known) ==>
              Assigned(rows, known)[i] == AssignmentOf(rows[FirstWhere(rows, Claims(known, i)).value])
    decreases |rows|
  {
    if |rows| > 0 {
      var n := |rows| - 1;
      AssignedFirst(rows[..n], known, i);
      WhereSnoc(rows, Claims(known, i), n);
      assert rows[..n + 1] == rows;
    }
  }

  /** Every slot below the count is taken exactly when the slots are 0..N-1:
      `sorted(keys) == list(range(len(keys)))`. */
  lemma ContiguousIff(m: map<int, Assignment>)
    ensures Contiguous(m) <==> forall i :: i in m <==> 0 <= i < |m|
  {
    if Contiguous(m) {
      var below := Below(|m|);
      assert below <= m.Keys;
      SubsetOfSameSize(below, m.Keys);
    }
  }

  /** The set {0, ..., n-1}. */
  function Below(n: nat): (r: set<int>)
    ensures forall i :: i in r <==> 0 <= i < n
    ensures |r| == n
  {
    if n == 0 then {} else Below(n - 1) + {n - 1}
  }

  lemma SubsetOfSameSize<T>(a: set<T>, b: set<T>)
    requires a <= b && |a| == |b|
    ensures a == b
  {
    if x :| x in b && x !in a {
      assert a <= b - {x};
      SubsetSize(a, b - {x});
    }
  }

  lemma {:induction false} SubsetSize<T>(a: set<T>, b: set<T>)
    requires a <= b
    ensures |a| <= |b|
    decreases b
  {
    if x :| x in b {
      SubsetSize(a - {x}, b - {x});
    }
  }

  /** A successful order puts in slot `i` the first row claiming `i`, and
      there are as many slots as taken indices. */
  lemma OrderBodiesSlots(rows: seq<Row>, known: set<string>)
    ensures var r := OrderBodies(rows, known);
            r.Ok? ==> && |r.value| == |Assigned(rows, known)| > 0
                      && forall i :: 0 <= i < |r.value| ==>
                           FirstWhere(rows, Claims(known, i)).Some?
                           && r.value[i] == AssignmentOf(rows[FirstWhere(rows, Claims(known, i)).value])
  {
    var r := OrderBodies(rows, known);
    if r.Ok? {
      forall i | 0 <= i < |r.value|
        ensures FirstWhere(rows, Claims(known, i)).Some?
        ensures r.value[i] == AssignmentOf(rows[FirstWhere(rows, Claims(known, i)).value])
      {
        AssignedFirst(rows, known, i);
      }
    }
  }

  /** The order fails exactly when no row claims a slot or the claimed
      slots are not 0..N-1. */
  lemma OrderBodiesFails(rows: seq<Row>, known: set<string>)
    ensures var m := Assigned(rows, known);
            OrderBodies(rows, known).Err? <==> |m| == 0 || !(forall i :: i in m <==> 0 <= i < |m|)
  {
    ContiguousIff(Assigned(rows, known));
  }

  /** The loop over the rows, the index check and the ordered list. */
  method AssignBodies(rows: seq<Row>, known: set<string>) returns (r: Result<seq<Assignment>>)
    ensures r == OrderBodies(rows, known)
  {
    var byIndex: map<int, Assignment> := map[];
    var k := 0;
    while k < |rows|
      invariant k <= |rows|
      invariant byIndex == Assigned(rows[..k], known)
    {
      var row := rows[k];
      ghost var upTo := rows[..k + 1];
      assert upTo[..|upTo| - 1] == rows[..k] && upTo[|upTo| - 1] == row;
      if row.meshName in known && row.bodyIndex !in byIndex {
        byIndex := byIndex[row.bodyIndex := AssignmentOf(row)];
      }
      k := k + 1;
    }
    assert rows[..|rows|] == rows;
    if |byIndex| == 0 {
      return Err(NothingAssigned);
    }
    var i := 0;
    while i < |byIndex|
      invariant i <= |byIndex|
      invariant forall j :: 0 <= j < i ==> j in byIndex
    {
      if i !in byIndex {
        return Err(NotContiguous);
      }
      i := i + 1;
    }
    var ordered: seq<Assignment> := [];
    while |ordered| < |byIndex|
      invariant |ordered| <= |byIndex|
      invariant forall j :: 0 <= j < |ordered| ==> ordered[j] == byIndex[j]
    {
      ordered := ordered + [byIndex[|ordered|]];
    }
    assert Contiguous(byIndex);
    assert ordered == seq(|byIndex|, j requires 0 <= j < |byIndex| && Contiguous(byIndex) => byIndex[j]);
    return Ok(ordered);
  }
}
