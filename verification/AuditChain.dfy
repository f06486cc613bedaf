/** The tamper-evidence chain: the sink that extends it and the verifier that walks it. */
module AuditChain {
  import opened Wrappers

  /** An event type this version can interpret, or a raw one it cannot. */
  datatype Kind = Known(name: string) | Unknown(raw: string)

  datatype Event = Event(id: nat, kind: Kind, subject: string, at: int, payload: map<string, string>)

  /** The digest of one event bound to the hash before it. */
  type Hasher = (Event, Option<string>) -> string

  /** One stored row; a legacy row carries no hash and is not part of the chain. */
  datatype Row = Row(event: Event, prior: Option<string>, hash: Option<string>)

  datatype Verdict = Verified | Broken(first: nat) | Unreadable(id: nat)

  ghost predicate CollisionFree(h: Hasher) {
    forall e, p, e', p' :: h(e, p) == h(e', p') ==> e == e' && p == p'
  }

  /** A row this version can read and whose stored hash recomputes. */
  predicate Sound(h: Hasher, row: Row) {
    row.event.kind.Known? && row.hash == Some(h(row.event, row.prior))
  }

  predicate LinkedAt(order: seq<Row>, i: nat)
    requires 0 < i < |order|
  {
    order[i].prior == order[i - 1].hash
  }

  /** One list: a head without predecessor, each row citing the row before it, every row sound. */
  predicate Chain(h: Hasher, order: seq<Row>) {
    && (order != [] ==> order[0].prior == None)
    && (forall i :: 0 < i < |order| ==> LinkedAt(order, i))
    && (forall i :: 0 <= i < |order| ==> Sound(h, order[i]))
  }

  function Chained(rows: seq<Row>): seq<Row> {
    if rows == [] then []
    else Chained(rows[..|rows| - 1]) + if rows[|rows| - 1].hash.Some? then [rows[|rows| - 1]] else []
  }

  /** The rows citing `prior`, in storage order. */
  function Citing(rows: seq<Row>, prior: Option<string>): seq<Row> {
    if rows == [] then []
    else Citing(rows[..|rows| - 1], prior) + if rows[|rows| - 1].prior == prior then [rows[|rows| - 1]] else []
  }

  function SmallestId(rows: seq<Row>): nat
    requires rows != []
  {
    if |rows| == 1 then rows[0].event.id
    else
      var rest := SmallestId(rows[..|rows| - 1]);
      if rows[|rows| - 1].event.id < rest then rows[|rows| - 1].event.id else rest
  }

  // --- the walk ------------------------------------------------------------

  /** The walk from `current` on, having validated `visited` rows. */
  function Follow(h: Hasher, rows: seq<Row>, current: Option<Row>, visited: nat): Verdict
    requires rows != [] && visited <= |rows|
    decreases |rows| - visited
  {
    if current == None || visited == |rows| then
      if visited == |rows| then Verified else Broken(SmallestId(rows))
    else
      var row := current.value;
      if row.event.kind.Unknown? then Unreadable(row.event.id)
      else if !Sound(h, row) then Broken(row.event.id)
      else
        var children := Citing(rows, row.hash);
        if |children| > 1 then Broken(children[0].event.id)
        else Follow(h, rows, if children == [] then None else Some(children[0]), visited + 1)
  }

  function WalkVerdict(h: Hasher, rows: seq<Row>): Verdict
    requires rows != []
  {
    var genesis := Citing(rows, None);
    if |genesis| == 1 then Follow(h, rows, Some(genesis[0]), 0)
    else if genesis == [] then Broken(SmallestId(rows))
    else Broken(genesis[0].event.id)
  }

  /** The dictionary the walk builds: for every cited hash, the rows citing it. */
  predicate Indexes(children: map<Option<string>, seq<Row>>, rows: seq<Row>) {
    && (forall p :: p in children ==> children[p] == Citing(rows, p))
    && (forall r :: r in rows ==> r.prior in children)
  }

  method ChildrenByPrior(rows: seq<Row>) returns (children: map<Option<string>, seq<Row>>)
    ensures Indexes(children, rows)
  {
    children := map[];
    for i := 0 to |rows|
      invariant Indexes(children, rows[..i])
    {
      var row := rows[i];
      assert rows[..i + 1][..i] == rows[..i];
      forall p | p !in children ensures Citing(rows[..i], p) == [] {
        CitingAbsent(rows[..i], p);
      }
      var earlier := if row.prior in children then children[row.prior] else [];
      children := children[row.prior := earlier + [row]];
    }
    assert rows[..|rows|] == rows;
  }

  lemma CitingAbsent(rows: seq<Row>, p: Option<string>)
    requires forall r :: r in rows ==> r.prior != p
    ensures Citing(rows, p) == []
  {}

  method Walk(h: Hasher, rows: seq<Row>) returns (v: Verdict)
    requires rows != []
    ensures v == WalkVerdict(h, rows)
  {
    var children := ChildrenByPrior(rows);
    forall p | p !in children ensures Citing(rows, p) == [] {
      CitingAbsent(rows, p);
    }
    var genesis := if None in children then children[None] else [];
    if |genesis| != 1 {
      if genesis != [] {
        return Broken(genesis[0].event.id);
      }
      var id := Earliest(rows);
      return Broken(id);
    }
    var visited, current := 0, Some(genesis[0]);
    while current.Some? && visited < |rows|
      invariant visited <= |rows|
      invariant Follow(h, rows, current, visited) == WalkVerdict(h, rows)
      decreases |rows| - visited
    {
      var row := current.value;
      if row.event.kind.Unknown? {
        return Unreadable(row.event.id);
      }
      if Some(h(row.event, row.prior)) != row.hash {
        return Broken(row.event.id);
      }
      visited := visited + 1;
      var next := if row.hash in children then children[row.hash] else [];
      if |next| > 1 {
        return Broken(next[0].event.id);
      }
      current := if next != [] then Some(next[0]) else None;
    }
    if visited != |rows| {
      var id := Earliest(rows);
      return Broken(id);
    }
    v := Verified;
  }

  method Earliest(rows: seq<Row>) returns (id: nat)
    requires rows != []
    ensures id == SmallestId(rows)
    ensures (exists r :: r in rows && r.event.id == id) && forall r :: r in rows ==> id <= r.event.id
  {
    id := rows[0].event.id;
    assert rows[..1] == [rows[0]];
    for i := 1 to |rows|
      invariant id == SmallestId(rows[..i])
      invariant (exists r :: r in rows[..i] && r.event.id == id) && forall r :: r in rows[..i] ==> id <= r.event.id
    {
      assert rows[..i + 1][..i] == rows[..i];
      assert rows[i] in rows[..i + 1];
      if rows[i].event.id < id {
        id := rows[i].event.id;
      }
    }
    assert rows[..|rows|] == rows;
  }

  // --- verification as the caller sees it --------------------------------------

  /** `order` holds the stored rows that carry a hash, each as often as it is stored, and no other. */
  ghost predicate Orders(order: seq<Row>, rows: seq<Row>) {
    forall x :: multiset(order)[x] == if x.hash.Some? then multiset(rows)[x] else 0
  }

  /** The first row along a linked list whose contents do not recompute or cannot be read. */
  ghost predicate FirstUnsound(h: Hasher, order: seq<Row>, m: nat) {
    Linked(order) && m < |order| && !Sound(h, order[m]) && forall i :: 0 <= i < m ==> Sound(h, order[i])
  }

  /** Of the stored rows with a hash, the first to cite what a later one cites too. */
  predicate HeadOfFork(rows: seq<Row>, i: nat)
    requires i < |rows|
  {
    && (forall k :: 0 <= k < i && rows[k].hash.Some? ==> rows[k].prior != rows[i].prior)
    && (exists k :: i < k < |rows| && rows[k].hash.Some? && rows[k].prior == rows[i].prior)
  }

  /** Why a row can be named: it does not recompute, two rows continue the chain where it does, or, when
      the chain does not reach every row, none has a smaller id. */
  predicate AtFault(h: Hasher, rows: seq<Row>, i: nat)
    requires i < |rows|
  {
    && rows[i].hash.Some?
    && (|| (rows[i].event.kind.Known? && !Sound(h, rows[i]))
        || HeadOfFork(rows, i)
        || forall r :: r in rows && r.hash.Some? ==> rows[i].event.id <= r.event.id)
  }

  /** The row a verdict names is stored, carries a hash and is at fault. */
  ghost predicate NamesAtFault(h: Hasher, rows: seq<Row>, v: Verdict) {
    match v
    case Verified => true
    case Broken(first) => exists i :: 0 <= i < |rows| && AtFault(h, rows, i) && rows[i].event.id == first
    case Unreadable(id) => exists r :: r in rows && r.hash.Some? && r.event.kind.Unknown? && r.event.id == id
  }

  /** Legacy rows are skipped: the verdict is clean exactly when the rows that carry a hash can be put
      in one chain. Otherwise it names a row at fault, and on a linked list the first unsound one. */
  method Verify(h: Hasher, rows: seq<Row>) returns (v: Verdict)
    requires CollisionFree(h)
    ensures v == Verified <==> exists order :: Chain(h, order) && Orders(order, rows)
    ensures (forall r :: r in rows ==> r.hash.None?) ==> v == Verified
    ensures (exists r :: r in rows && r.hash.Some? && !Sound(h, r)) ==> v != Verified
    ensures forall order, m :: Orders(order, rows) && FirstUnsound(h, order, m) ==> v == Blame(order[m])
    ensures NamesAtFault(h, rows, v)
  {
    var chained := [];
    for i := 0 to |rows|
      invariant chained == Chained(rows[..i])
    {
      assert rows[..i + 1][..i] == rows[..i];
      if rows[i].hash.Some? {
        chained := chained + [rows[i]];
      }
    }
    assert rows[..|rows|] == rows;
    hide Chained, Chain, Orders, FirstUnsound, NamesAtFault, WalkVerdict;
    if chained == [] {
      NothingChained(h, rows);
      return Verified;
    }
    v := Walk(h, chained);
    VerdictOnStored(h, rows);
  }

  lemma {:induction false} ChainedCounts(rows: seq<Row>, x: Row)
    ensures multiset(Chained(rows))[x] == if x.hash.Some? then multiset(rows)[x] else 0
  {
    if rows != [] {
      var n := |rows| - 1;
      assert rows == rows[..n] + [rows[n]];
      ChainedCounts(rows[..n], x);
    }
  }

  lemma ChainedOrders(rows: seq<Row>, order: seq<Row>)
    ensures Orders(order, rows) <==> multiset(order) == multiset(Chained(rows))
    ensures forall r :: r in Chained(rows) <==> r in rows && r.hash.Some?
  {
    var chained := Chained(rows);
    forall x: Row ensures multiset(chained)[x] == if x.hash.Some? then multiset(rows)[x] else 0 {
      ChainedCounts(rows, x);
    }
    forall r ensures r in chained <==> r in rows && r.hash.Some? {
      assert r in chained <==> multiset(chained)[r] > 0;
      assert r in rows <==> multiset(rows)[r] > 0;
    }
  }

  lemma NothingChained(h: Hasher, rows: seq<Row>)
    requires Chained(rows) == []
    ensures Chain(h, []) && Orders([], rows)
    ensures forall r :: r in rows ==> r.hash.None?
    ensures forall order, m :: Orders(order, rows) ==> !FirstUnsound(h, order, m)
    ensures NamesAtFault(h, rows, Verified)
  {
    forall order ensures Orders(order, rows) ==> order == [] {
      ChainedOrders(rows, order);
      hide Orders;
      assert order != [] ==> order[0] in multiset(order);
    }
    ChainedOrders(rows, []);
  }

  /** What the walk over the rows with a hash says of all stored rows. */
  lemma VerdictOnStored(h: Hasher, rows: seq<Row>)
    requires CollisionFree(h) && Chained(rows) != []
    ensures var v := WalkVerdict(h, Chained(rows));
            && (v == Verified <==> exists order :: Chain(h, order) && Orders(order, rows))
            && ((exists r :: r in rows && r.hash.Some? && !Sound(h, r)) ==> v != Verified)
            && NamesAtFault(h, rows, v)
    ensures exists r :: r in rows && r.hash.Some?
    ensures forall order, m :: Orders(order, rows) && FirstUnsound(h, order, m) ==>
              WalkVerdict(h, Chained(rows)) == Blame(order[m])
  {
    var chained := Chained(rows);
    WalkIsExact(h, chained);
    WalkNames(h, rows);
    ChainedOrders(rows, []);
    assert chained[0] in chained;
    hide Chained, Chain, Orders, WalkVerdict, NamesAtFault, Linked;
    forall order ensures Orders(order, rows) <==> multiset(order) == multiset(chained) {
      ChainedOrders(rows, order);
    }
    forall order, m | Orders(order, rows) && FirstUnsound(h, order, m)
      ensures WalkVerdict(h, chained) == Blame(order[m])
    {
      EditIsLocalised(h, chained, order, m);
    }
    forall order | Chain(h, order) && Orders(order, rows)
      ensures forall r :: r in rows && r.hash.Some? ==> Sound(h, r)
    {
      ChainedAreSound(h, chained, order);
    }
  }

  lemma ChainedAreSound(h: Hasher, rows: seq<Row>, order: seq<Row>)
    requires Chain(h, order) && multiset(order) == multiset(rows)
    ensures forall r :: r in rows ==> Sound(h, r)
  {
    forall r | r in rows ensures Sound(h, r) {
      assert r in multiset(rows);
      assert r in order;
    }
  }

  lemma CitingChainedSnoc(rows: seq<Row>, last: Row, prior: Option<string>)
    ensures Citing(Chained(rows + [last]), prior)
            == Citing(Chained(rows), prior) + if last.hash.Some? && last.prior == prior then [last] else []
  {
    assert (rows + [last])[..|rows|] == rows;
    var chained := Chained(rows);
    assert (chained + [last])[..|chained|] == chained && chained + [] == chained;
    assert Citing(chained, prior) + [] == Citing(chained, prior);
  }

  lemma {:induction false} CitesNothing(rows: seq<Row>, prior: Option<string>)
    requires Citing(Chained(rows), prior) == []
    ensures forall r :: r in rows && r.hash.Some? ==> r.prior != prior
  {
    ChainedOrders(rows, []);
    forall r | r in rows && r.hash.Some? ensures r.prior != prior {
      CitingCounts(Chained(rows), prior, r);
      assert r in multiset(Chained(rows));
    }
  }

  /** The first of the rows with a hash that cite `prior` is the first stored, and any further one
      is stored after it. */
  lemma {:induction false} CitingFirst(rows: seq<Row>, prior: Option<string>) returns (i: nat)
    requires Citing(Chained(rows), prior) != []
    ensures i < |rows| && rows[i] == Citing(Chained(rows), prior)[0] && rows[i].hash.Some? && rows[i].prior == prior
    ensures forall k :: 0 <= k < i && rows[k].hash.Some? ==> rows[k].prior != prior
    ensures |Citing(Chained(rows), prior)| > 1 ==>
              exists k :: i < k < |rows| && rows[k].hash.Some? && rows[k].prior == prior
  {
    var n := |rows| - 1;
    var before, last := rows[..n], rows[n];
    assert rows == before + [last];
    CitingChainedSnoc(before, last, prior);
    if Citing(Chained(before), prior) != [] {
      i := CitingFirst(before, prior);
      assert rows[i] == before[i];
    } else {
      i := n;
      CitesNothing(before, prior);
      forall k | 0 <= k < n && rows[k].hash.Some? ensures rows[k].prior != prior {
        assert rows[k] in before;
      }
    }
    hide Citing, Chained;
  }

  lemma WalkNames(h: Hasher, rows: seq<Row>)
    requires Chained(rows) != []
    ensures NamesAtFault(h, rows, WalkVerdict(h, Chained(rows)))
  {
    var chained := Chained(rows);
    var genesis := Citing(chained, None);
    if genesis == [] {
      SmallestIsNamed(h, rows);
    } else {
      ForkNames(h, rows, None);
      if |genesis| == 1 { FollowNames(h, rows, Some(genesis[0]), 0); }
    }
  }

  /** The first row citing a hash is a stored row, and at fault when it is not the only one. */
  lemma ForkNames(h: Hasher, rows: seq<Row>, prior: Option<string>)
    requires Citing(Chained(rows), prior) != []
    ensures var first := Citing(Chained(rows), prior)[0];
            && first in rows && first.hash.Some?
            && (|Citing(Chained(rows), prior)| > 1 ==> NamesAtFault(h, rows, Broken(first.event.id)))
  {
    var i := CitingFirst(rows, prior);
    hide Citing, Chained;
    if |Citing(Chained(rows), prior)| > 1 { assert HeadOfFork(rows, i) && AtFault(h, rows, i); }
  }

  lemma SmallestIsNamed(h: Hasher, rows: seq<Row>)
    requires Chained(rows) != []
    ensures NamesAtFault(h, rows, Verified) && NamesAtFault(h, rows, Broken(SmallestId(Chained(rows))))
  {
    SmallestIsLeast(Chained(rows));
    ChainedOrders(rows, []);
    var r :| r in Chained(rows) && r.event.id == SmallestId(Chained(rows));
    var i :| 0 <= i < |rows| && rows[i] == r;
    assert AtFault(h, rows, i);
  }

  lemma {:induction false} SmallestIsLeast(rows: seq<Row>)
    requires rows != []
    ensures exists r :: r in rows && r.event.id == SmallestId(rows)
    ensures forall r :: r in rows ==> SmallestId(rows) <= r.event.id
  {
    var n := |rows| - 1;
    assert rows == rows[..n] + [rows[n]];
    if n > 0 { SmallestIsLeast(rows[..n]); }
    assert rows[n] in rows;
  }

  lemma UnsoundNames(h: Hasher, rows: seq<Row>, row: Row)
    requires row in rows && row.hash.Some?
    ensures !Sound(h, row) ==> NamesAtFault(h, rows, Blame(row))
  {
    var at :| 0 <= at < |rows| && rows[at] == row;
    assert !Sound(h, row) && row.event.kind.Known? ==> AtFault(h, rows, at);
  }

  lemma {:induction false} FollowNames(h: Hasher, rows: seq<Row>, current: Option<Row>, visited: nat)
    requires Chained(rows) != [] && visited <= |Chained(rows)|
    requires current.Some? ==> current.value in rows && current.value.hash.Some?
    ensures NamesAtFault(h, rows, Follow(h, Chained(rows), current, visited))
    decreases |Chained(rows)| - visited
  {
    hide Citing, Chained, SmallestId, NamesAtFault;
    var chained := Chained(rows);
    if current == None || visited == |chained| {
      SmallestIsNamed(h, rows);
    } else {
      var row := current.value;
      UnsoundNames(h, rows, row);
      if Sound(h, row) {
        var children := Citing(chained, row.hash);
        if children == [] {
          FollowNames(h, rows, None, visited + 1);
        } else {
          ForkNames(h, rows, row.hash);
          if |children| == 1 { FollowNames(h, rows, Some(children[0]), visited + 1); }
        }
      }
    }
  }

  // --- facts about citing --------------------------------------------------

  lemma CitingCounts(rows: seq<Row>, prior: Option<string>, x: Row)
    ensures multiset(Citing(rows, prior))[x] == if x.prior == prior then multiset(rows)[x] else 0
  {
    if rows != [] {
      var n := |rows| - 1;
      assert rows == rows[..n] + [rows[n]];
      CitingCounts(rows[..n], prior, x);
    }
  }

  lemma CountsOnly(order: seq<Row>, prior: Option<string>, k: nat, x: Row)
    requires k < |order| && order[k].prior == prior && x.prior == prior
    requires forall i :: 0 <= i < |order| && i != k ==> order[i].prior != prior
    ensures multiset(order)[x] == if x == order[k] then 1 else 0
  {
    var before, after := order[..k], order[k + 1..];
    assert order == before + [order[k]] + after;
    assert x !in before && x !in after;
  }

  /** If exactly one row of `order` cites `prior` and `rows` holds the same rows, then that row is
      the only one found. */
  lemma CitingOnly(rows: seq<Row>, order: seq<Row>, prior: Option<string>, k: nat)
    requires multiset(rows) == multiset(order) && k < |order| && order[k].prior == prior
    requires forall i :: 0 <= i < |order| && i != k ==> order[i].prior != prior
    ensures Citing(rows, prior) == [order[k]]
  {
    var found := Citing(rows, prior);
    forall x ensures multiset(found)[x] == multiset{order[k]}[x] {
      CitingCounts(rows, prior, x);
      if x.prior == prior {
        CountsOnly(order, prior, k, x);
      }
    }
    assert multiset(found) == multiset{order[k]};
    assert |found| == |multiset(found)| == 1;
    assert found[0] in multiset(found);
  }

  lemma CitingNone(rows: seq<Row>, order: seq<Row>, prior: Option<string>)
    requires multiset(rows) == multiset(order)
    requires forall i :: 0 <= i < |order| ==> order[i].prior != prior
    ensures Citing(rows, prior) == []
  {
    forall r | r in rows ensures r.prior != prior {
      assert r in multiset(rows);
    }
    CitingAbsent(rows, prior);
  }

  // --- a linked list, sound or not -----------------------------------------

  /** The pointers form one list without repeated hashes; contents may have been edited. */
  ghost predicate Linked(order: seq<Row>) {
    && (order != [] ==> order[0].prior == None)
    && (forall i :: 0 < i < |order| ==> LinkedAt(order, i))
    && (forall i :: 0 <= i < |order| ==> order[i].hash.Some?)
    && (forall i, j :: 0 <= i < j < |order| ==> order[i].hash != order[j].hash)
  }

  lemma {:induction false} ChainHashesDiffer(h: Hasher, order: seq<Row>, i: nat, j: nat)
    requires CollisionFree(h) && Chain(h, order) && i < j < |order|
    ensures order[i].hash != order[j].hash
    decreases i
  {
    assert Sound(h, order[i]) && Sound(h, order[j]);
    assert LinkedAt(order, j) && Sound(h, order[j - 1]);
    if i > 0 {
      assert LinkedAt(order, i);
      ChainHashesDiffer(h, order, i - 1, j - 1);
    }
  }

  lemma ChainIsLinked(h: Hasher, order: seq<Row>)
    requires CollisionFree(h) && Chain(h, order)
    ensures Linked(order)
  {
    forall i | 0 <= i < |order| ensures order[i].hash.Some? {
      assert Sound(h, order[i]);
    }
    forall i, j | 0 <= i < j < |order| ensures order[i].hash != order[j].hash {
      ChainHashesDiffer(h, order, i, j);
    }
  }

  /** What the walk reports when it comes to an unsound row. */
  function Blame(row: Row): Verdict {
    if row.event.kind.Unknown? then Unreadable(row.event.id) else Broken(row.event.id)
  }

  /** On a linked list stored in any order the walk follows the list and stops at its first unsound
      row, whatever lies after it. */
  lemma {:induction false} FollowLinked(h: Hasher, rows: seq<Row>, order: seq<Row>, k: nat, m: nat)
    requires rows != [] && multiset(rows) == multiset(order) && |rows| == |order| && Linked(order)
    requires k <= m <= |order| && forall i :: k <= i < m ==> Sound(h, order[i])
    requires m < |order| ==> !Sound(h, order[m])
    ensures Follow(h, rows, if k < |order| then Some(order[k]) else None, k)
            == if m == |order| then Verified else Blame(order[m])
    decreases m - k
  {
    if k < m {
      assert Sound(h, order[k]);
      if k + 1 < |order| {
        CitingOnly(rows, order, order[k].hash, k + 1) by {
          assert LinkedAt(order, k + 1);
          forall i | 0 <= i < |order| && i != k + 1 ensures order[i].prior != order[k].hash {
            if i > 0 { assert LinkedAt(order, i); }
          }
        }
      } else {
        CitingNone(rows, order, order[k].hash) by {
          forall i | 0 <= i < |order| ensures order[i].prior != order[k].hash {
            if i > 0 { assert LinkedAt(order, i); }
          }
        }
      }
      FollowLinked(h, rows, order, k + 1, m);
    }
  }

  /** Localisation: whatever contents were edited in whatever rows, as long as the stored pointers
      still form one list, the verdict is clean when every row is sound and otherwise names the
      first unsound row along the list. */
  lemma EditIsLocalised(h: Hasher, rows: seq<Row>, order: seq<Row>, m: nat)
    requires rows != [] && multiset(rows) == multiset(order) && Linked(order)
    requires m <= |order| && (forall i :: 0 <= i < m ==> Sound(h, order[i]))
    requires m < |order| ==> !Sound(h, order[m])
    ensures WalkVerdict(h, rows) == if m == |order| then Verified else Blame(order[m])
  {
    assert |rows| == |multiset(rows)| == |order|;
    CitingOnly(rows, order, None, 0) by {
      forall i | 0 <= i < |order| && i != 0 ensures order[i].prior != None {
        assert LinkedAt(order, i);
      }
    }
    FollowLinked(h, rows, order, 0, m);
  }

  // --- exactness -----------------------------------------------------------

  /** If the walk ends clean, the rows it still had to visit continue the chain it has visited. */
  lemma {:induction false} CleanWalkIsChain(h: Hasher, rows: seq<Row>, path: seq<Row>, current: Option<Row>)
    returns (order: seq<Row>)
    requires rows != [] && |path| <= |rows|
    requires Chain(h, path) && forall r :: r in path ==> r in rows
    requires current.Some? ==>
               && current.value in rows
               && current.value.prior == if path == [] then None else path[|path| - 1].hash
    requires Follow(h, rows, current, |path|) == Verified
    ensures Chain(h, order) && |order| == |rows| && forall r :: r in order ==> r in rows
    decreases |rows| - |path|
  {
    if current == None || |path| == |rows| {
      order := path;
    } else {
      var row := current.value;
      var children := Citing(rows, row.hash);
      var longer := path + [row];
      ChainSnoc(h, path, row);
      if children != [] {
        CitingCounts(rows, row.hash, children[0]);
        assert children[0] in multiset(children);
        assert children[0] in multiset(rows);
      }
      order := CleanWalkIsChain(h, rows, longer, if children == [] then None else Some(children[0]));
    }
  }

  lemma DistinctRowsFill(rows: seq<Row>, order: seq<Row>)
    requires |order| == |rows| && Linked(order) && forall r :: r in order ==> r in rows
    ensures multiset(order) == multiset(rows)
  {
    forall x ensures multiset(order)[x] <= multiset(rows)[x] {
      if x in multiset(order) {
        assert x in order;
        OnceEach(order, x);
        assert x in multiset(rows);
      }
    }
    assert multiset(order) <= multiset(rows);
    assert |multiset(rows) - multiset(order)| == 0;
  }

  lemma OnceEach(order: seq<Row>, x: Row)
    requires forall i, j :: 0 <= i < j < |order| ==> order[i].hash != order[j].hash
    ensures multiset(order)[x] <= 1
  {
    if order != [] {
      assert order == [order[0]] + order[1..];
      OnceEach(order[1..], x);
      forall j | 0 <= j < |order[1..]| ensures order[1..][j] != order[0] {
        assert order[0].hash != order[j + 1].hash;
      }
    }
  }

  /** The walk is exact on every non-empty set of chained rows, however damaged: forks, orphans,
      cycles, missing or repeated heads and edited contents are all refused, and nothing else is. */
  lemma WalkIsExact(h: Hasher, rows: seq<Row>)
    requires CollisionFree(h) && rows != []
    ensures WalkVerdict(h, rows) == Verified <==> exists order :: Chain(h, order) && multiset(order) == multiset(rows)
  {
    if order :| Chain(h, order) && multiset(order) == multiset(rows) {
      ChainIsLinked(h, order);
      EditIsLocalised(h, rows, order, |order|);
    }
    if WalkVerdict(h, rows) == Verified {
      var genesis := Citing(rows, None);
      CitingCounts(rows, None, genesis[0]);
      assert genesis[0] in multiset(genesis);
      assert genesis[0] in multiset(rows);
      var order := CleanWalkIsChain(h, rows, [], Some(genesis[0]));
      ChainIsLinked(h, order);
      DistinctRowsFill(rows, order);
    }
  }

  // --- the sink ------------------------------------------------------------

  predicate Cited(rows: seq<Row>, hash: Option<string>) {
    exists r :: r in rows && r.prior == hash
  }

  /** What the tail query may answer: the hash of some chained row nothing cites, or nothing when
      there is no such row. The query has no order, so with several tails any of them may come. */
  predicate TailAnswer(rows: seq<Row>, prior: Option<string>) {
    match prior
    case Some(_) => (exists r :: r in rows && r.hash == prior) && !Cited(rows, prior)
    case None => forall r :: r in rows && r.hash.Some? ==> Cited(rows, r.hash)
  }

  class DatabaseAuditSink {
    const hasher: Hasher
    var rows: seq<Row>

    constructor (hasher: Hasher)
      ensures this.hasher == hasher && rows == []
    {
      this.hasher := hasher;
      rows := [];
    }

    method Tail() returns (prior: Option<string>)
      ensures TailAnswer(rows, prior)
    {
      for i := 0 to |rows|
        invariant forall k :: 0 <= k < i && rows[k].hash.Some? ==> Cited(rows, rows[k].hash)
      {
        if rows[i].hash.Some? && !Cited(rows, rows[i].hash) {
          return rows[i].hash;
        }
      }
      prior := None;
    }

    /** One append in its own transaction. A used event id is refused and nothing changes. */
    method Append(event: Event) returns (ok: bool)
      modifies this
      ensures ok <==> forall r :: r in old(rows) ==> r.event.id != event.id
      ensures ok ==> exists prior ::
                && TailAnswer(old(rows), prior)
                && rows == old(rows) + [Row(event, prior, Some(hasher(event, prior)))]
      ensures !ok ==> rows == old(rows)
      ensures CollisionFree(hasher) && old(Chain(hasher, rows)) && event.kind.Known? ==> Chain(hasher, rows)
    {
      var prior := Tail();
      ok := forall r :: r in rows ==> r.event.id != event.id;
      if ok {
        if CollisionFree(hasher) && Chain(hasher, rows) && event.kind.Known? {
          SerialAppend(hasher, rows, prior, event);
        }
        rows := rows + [Row(event, prior, Some(hasher(event, prior)))];
      }
    }
  }

  /** An intact chain has one possible tail answer, its last hash. */
  lemma ChainTail(h: Hasher, rows: seq<Row>, prior: Option<string>)
    requires CollisionFree(h) && Chain(h, rows) && TailAnswer(rows, prior)
    ensures prior == if rows == [] then None else rows[|rows| - 1].hash
  {
    ChainIsLinked(h, rows);
    hide CollisionFree, Chain;
    forall i | 0 <= i < |rows| - 1 ensures Cited(rows, rows[i].hash) {
      assert LinkedAt(rows, i + 1);
      assert rows[i + 1] in rows;
    }
    if rows != [] {
      var last := rows[|rows| - 1];
      forall i | 0 <= i < |rows| ensures rows[i].prior != last.hash {
        if i > 0 { assert LinkedAt(rows, i); }
      }
      assert last in rows && !Cited(rows, last.hash);
    }
  }

  lemma ChainSnoc(h: Hasher, rows: seq<Row>, row: Row)
    requires Chain(h, rows) && Sound(h, row)
    requires row.prior == if rows == [] then None else rows[|rows| - 1].hash
    ensures Chain(h, rows + [row])
  {
    var all := rows + [row];
    forall i | 0 <= i < |all| ensures Sound(h, all[i]) {
      if i < |rows| { assert Sound(h, rows[i]); }
    }
    forall i | 0 < i < |all| ensures LinkedAt(all, i) {
      if i < |rows| { assert LinkedAt(rows, i); }
    }
  }

  lemma SerialAppend(h: Hasher, rows: seq<Row>, prior: Option<string>, event: Event)
    requires CollisionFree(h) && Chain(h, rows) && TailAnswer(rows, prior) && event.kind.Known?
    ensures Chain(h, rows + [Row(event, prior, Some(h(event, prior)))])
  {
    ChainTail(h, rows, prior);
    ChainSnoc(h, rows, Row(event, prior, Some(h(event, prior))));
  }

  // --- concurrent appends, over whole runs -----------------------------------

  /** The trail and the appends in progress: what each has read as the tail. */
  datatype Trail = Trail(rows: seq<Row>, seen: map<nat, Option<string>>)

  datatype Action = Read(writer: nat) | Insert(writer: nat, event: Event) | Rollback(writer: nat)

  ghost predicate Step(h: Hasher, t: Trail, a: Action, t': Trail) {
    match a
    case Read(w) =>
      w !in t.seen && exists prior :: TailAnswer(t.rows, prior) && t' == t.(seen := t.seen[w := prior])
    case Insert(w, e) =>
      && w in t.seen
      && e.kind.Known?
      && (forall r :: r in t.rows ==> r.event.id != e.id)
      && t' == Trail(t.rows + [Row(e, t.seen[w], Some(h(e, t.seen[w])))], t.seen - {w})
    case Rollback(w) =>
      t' == t.(seen := t.seen - {w})
  }

  ghost predicate Run(h: Hasher, states: seq<Trail>, actions: seq<Action>) {
    && |states| == |actions| + 1
    && states[0] == Trail([], map[])
    && forall i {:trigger actions[i]} :: 0 <= i < |actions| ==> Step(h, states[i], actions[i], states[i + 1])
  }

  /** Two committed appends that read the same tail (or both found none). */
  predicate Forked(rows: seq<Row>) {
    exists i, j :: 0 <= i < j < |rows| && rows[i].prior == rows[j].prior
  }

  ghost predicate EarlierHash(rows: seq<Row>, n: nat, prior: Option<string>)
    requires n <= |rows|
  {
    prior == None || exists k :: 0 <= k < n && rows[k].hash == prior
  }

  /** A row the sink wrote: it recomputes, and what it cites was stored before it. */
  ghost predicate WrittenAt(h: Hasher, rows: seq<Row>, i: nat)
    requires i < |rows|
  {
    Sound(h, rows[i]) && EarlierHash(rows, i, rows[i].prior)
  }

  ghost predicate TrailInvariant(h: Hasher, t: Trail) {
    && (forall i :: 0 <= i < |t.rows| ==> WrittenAt(h, t.rows, i))
    && (forall w :: w in t.seen ==> EarlierHash(t.rows, |t.rows|, t.seen[w]))
  }

  lemma StepKeepsTrailInvariant(h: Hasher, t: Trail, a: Action, t': Trail)
    requires TrailInvariant(h, t) && Step(h, t, a, t')
    ensures TrailInvariant(h, t') && t.rows <= t'.rows
  {
    if a.Read? {
      var prior :| TailAnswer(t.rows, prior) && t' == t.(seen := t.seen[a.writer := prior]);
      if prior.Some? {
        var r :| r in t.rows && r.hash == prior;
        var k :| 0 <= k < |t.rows| && t.rows[k] == r;
      }
    } else if a.Insert? {
      forall i | 0 <= i < |t'.rows|
        ensures WrittenAt(h, t'.rows, i)
      {
        var prior := t'.rows[i].prior;
        if i < |t.rows| { assert WrittenAt(h, t.rows, i); }
        assert EarlierHash(t.rows, i, prior);
        if prior.Some? {
          var k :| 0 <= k < i && t.rows[k].hash == prior;
          assert t'.rows[k].hash == prior;
        }
      }
      forall w | w in t'.seen ensures EarlierHash(t'.rows, |t'.rows|, t'.seen[w]) {
        if t.seen[w].Some? {
          var k :| 0 <= k < |t.rows| && t.rows[k].hash == t.seen[w];
          assert t'.rows[k].hash == t'.seen[w];
        }
      }
    }
  }

  lemma {:induction false} RunKeepsTrailInvariant(h: Hasher, states: seq<Trail>, actions: seq<Action>, n: nat)
    requires Run(h, states, actions) && n < |states|
    ensures TrailInvariant(h, states[n]) && forall m :: 0 <= m <= n ==> states[m].rows <= states[n].rows
  {
    if n > 0 {
      RunKeepsTrailInvariant(h, states, actions, n - 1);
      assert Step(h, states[n - 1], actions[n - 1], states[n - 1 + 1]);
      StepKeepsTrailInvariant(h, states[n - 1], actions[n - 1], states[n]);
    }
  }

  /** A row that read an earlier hash nobody else read can only have read the newest one. */
  lemma OnlyNewestIsFree(h: Hasher, rows: seq<Row>, m: nat)
    requires 0 < m < |rows| && !Forked(rows) && Chain(h, rows[..m]) && EarlierHash(rows, m, rows[m].prior)
    ensures rows[m].prior == rows[m - 1].hash
  {
    assert rows[0] == rows[..m][0] && rows[0].prior != rows[m].prior;
    if rows[m].prior.Some? {
      forall k | 0 <= k < m - 1 ensures rows[k].hash != rows[m].prior {
        assert LinkedAt(rows[..m], k + 1);
        assert rows[k + 1].prior == rows[k].hash;
      }
    }
  }

  /** With every prior read from an earlier row and no two alike, the insertion order is the chain. */
  lemma {:induction false} UnforkedIsInsertionOrder(h: Hasher, rows: seq<Row>, n: nat)
    requires n <= |rows| && !Forked(rows)
    requires forall i :: 0 <= i < |rows| ==> WrittenAt(h, rows, i)
    ensures Chain(h, rows[..n])
  {
    if n > 0 {
      var m := n - 1;
      UnforkedIsInsertionOrder(h, rows, m);
      assert WrittenAt(h, rows, m);
      if m > 0 {
        OnlyNewestIsFree(h, rows, m);
      }
      ChainSnoc(h, rows[..m], rows[m]);
      assert rows[..n] == rows[..m] + [rows[m]];
    }
  }

  lemma TwiceCounted(rows: seq<Row>, i: nat, j: nat)
    requires i < j < |rows| && rows[i] == rows[j]
    ensures multiset(rows)[rows[i]] >= 2
  {
    assert rows == rows[..i] + [rows[i]] + rows[i + 1..j] + [rows[j]] + rows[j + 1..];
  }

  lemma ChainIsUnforked(h: Hasher, rows: seq<Row>, order: seq<Row>)
    requires CollisionFree(h) && Chain(h, order) && multiset(order) == multiset(rows)
    ensures !Forked(rows)
  {
    ChainIsLinked(h, order);
    if i, j :| 0 <= i < j < |rows| && rows[i].prior == rows[j].prior {
      var x, y := rows[i], rows[j];
      assert x in multiset(rows) && y in multiset(rows);
      var p :| 0 <= p < |order| && order[p] == x;
      var q :| 0 <= q < |order| && order[q] == y;
      if p > 0 { assert LinkedAt(order, p); }
      if q > 0 { assert LinkedAt(order, q); }
      assert p == q;
      TwiceCounted(rows, i, j);
      OnceEach(order, x);
    }
  }

  /** Over every run of interleaved appends: the trail verifies at a moment exactly when no two
      appends committed by then had read the same tail. */
  lemma RunVerifiesIffUnforked(h: Hasher, states: seq<Trail>, actions: seq<Action>, n: nat)
    requires CollisionFree(h) && Run(h, states, actions) && n < |states| && states[n].rows != []
    ensures WalkVerdict(h, states[n].rows) == Verified <==> !Forked(states[n].rows)
  {
    var rows := states[n].rows;
    RunKeepsTrailInvariant(h, states, actions, n);
    WalkIsExact(h, rows);
    if !Forked(rows) {
      UnforkedIsInsertionOrder(h, rows, |rows|);
      assert rows[..|rows|] == rows;
    }
    if order :| Chain(h, order) && multiset(order) == multiset(rows) {
      ChainIsUnforked(h, rows, order);
    }
  }

  /** A fork is never healed: once a run's trail fails because of one, it fails at every later
      moment of that run. */
  lemma ForkIsForever(h: Hasher, states: seq<Trail>, actions: seq<Action>, m: nat, n: nat)
    requires CollisionFree(h) && Run(h, states, actions) && m <= n < |states|
    requires states[m].rows != [] && WalkVerdict(h, states[m].rows) != Verified
    ensures states[n].rows != [] && WalkVerdict(h, states[n].rows) != Verified
  {
    RunKeepsTrailInvariant(h, states, actions, n);
    RunVerifiesIffUnforked(h, states, actions, m);
    var i, j :| 0 <= i < j < |states[m].rows| && states[m].rows[i].prior == states[m].rows[j].prior;
    assert states[n].rows[i].prior == states[n].rows[j].prior;
    RunVerifiesIffUnforked(h, states, actions, n);
  }

  /** Appends one at a time: every insert directly follows its own read of the tail. */
  ghost predicate Serial(actions: seq<Action>) {
    forall i {:trigger actions[i]} :: 0 <= i < |actions| && actions[i].Insert? ==>
      i > 0 && actions[i - 1] == Read(actions[i].writer)
  }

  lemma {:induction false} SerialRunIsChain(h: Hasher, states: seq<Trail>, actions: seq<Action>, n: nat)
    requires CollisionFree(h) && Run(h, states, actions) && Serial(actions) && n < |states|
    ensures Chain(h, states[n].rows)
    ensures n > 0 && actions[n - 1].Read? ==>
              var w := actions[n - 1].writer;
              w in states[n].seen && TailAnswer(states[n].rows, states[n].seen[w])
  {
    if n > 0 {
      SerialRunIsChain(h, states, actions, n - 1);
      var a := actions[n - 1];
      assert Step(h, states[n - 1], a, states[n - 1 + 1]);
      if a.Insert? {
        SerialAppend(h, states[n - 1].rows, states[n - 1].seen[a.writer], a.event);
      }
    }
  }

  /** A trail only ever appended to one event at a time verifies at every moment. */
  lemma SerialRunVerifies(h: Hasher, states: seq<Trail>, actions: seq<Action>, n: nat)
    requires CollisionFree(h) && Run(h, states, actions) && Serial(actions) && n < |states|
    requires states[n].rows != []
    ensures WalkVerdict(h, states[n].rows) == Verified
  {
    SerialRunIsChain(h, states, actions, n);
    WalkIsExact(h, states[n].rows);
  }

  // --- what the verdict says about what was written --------------------------

  /** Rows whose hashes the sink wrote, forming a chain of their own, are a prefix of the written
      chain row by row. */
  lemma {:induction false} ChainOfWrittenIsPrefix(h: Hasher, written: seq<Row>, order: seq<Row>, n: nat)
    requires CollisionFree(h) && Chain(h, written) && Chain(h, order) && n <= |order|
    requires AllWritten(written, order)
    ensures n <= |written| && order[..n] == written[..n]
  {
    if n > 0 {
      var m := n - 1;
      ChainOfWrittenIsPrefix(h, written, order, m);
      ChainIsLinked(h, written);
      assert order[m] in order && Sound(h, order[m]);
      var w :| w in written && w.hash == order[m].hash;
      var k :| 0 <= k < |written| && written[k] == w;
      assert Sound(h, written[k]);
      assert order[m].prior == written[k].prior && order[m] == written[k];
      if m > 0 {
        assert order[..m][m - 1] == written[..m][m - 1];
        assert LinkedAt(order, m);
        assert order[m].prior == written[m - 1].hash;
      }
      assert k == m by {
        forall i | 0 < i < |written| && i != m ensures written[i].prior != order[m].prior {
          assert LinkedAt(written, i);
        }
        assert m > 0 ==> written[0].prior != order[m].prior;
      }
      assert order[..n] == order[..m] + [order[m]] && written[..n] == written[..m] + [written[m]];
    }
  }

  predicate AllWritten(written: seq<Row>, rows: seq<Row>) {
    forall r :: r in rows ==> exists w :: w in written && w.hash == r.hash
  }

  lemma PrefixIsChain(h: Hasher, written: seq<Row>, n: nat)
    requires Chain(h, written) && n <= |written|
    ensures Chain(h, written[..n])
  {
    forall i | 0 < i < n ensures LinkedAt(written[..n], i) {
      assert LinkedAt(written, i);
    }
  }

  lemma ChainedWrittenIsPrefix(h: Hasher, written: seq<Row>, rows: seq<Row>, order: seq<Row>)
    requires CollisionFree(h) && Chain(h, written) && AllWritten(written, rows) && rows != []
    requires Chain(h, order) && multiset(order) == multiset(rows)
    ensures 0 < |order| <= |written| && multiset(rows) == multiset(written[..|order|])
  {
    forall r | r in order ensures r in rows {
      assert r in multiset(rows);
    }
    ChainOfWrittenIsPrefix(h, written, order, |order|);
    assert order[..|order|] == order;
    assert |order| == |multiset(rows)| > 0;
  }

  /** Detection: among the row sets whose hashes were all once written by the sink, the ones that
      verify are exactly the non-empty prefixes of what was written. Removing the newest rows is
      the only change to recorded rows the verdict cannot see. */
  lemma VerifiesIffPrefixOfWritten(h: Hasher, written: seq<Row>, rows: seq<Row>)
    requires CollisionFree(h) && Chain(h, written) && AllWritten(written, rows) && rows != []
    ensures WalkVerdict(h, rows) == Verified
            <==> exists n :: 0 < n <= |written| && multiset(rows) == multiset(written[..n])
  {
    WalkIsExact(h, rows);
    if order :| Chain(h, order) && multiset(order) == multiset(rows) {
      ChainedWrittenIsPrefix(h, written, rows, order);
    }
    if n :| 0 < n <= |written| && multiset(rows) == multiset(written[..n]) {
      PrefixIsChain(h, written, n);
    }
  }
}
