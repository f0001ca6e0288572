/**
 * Binary attachments: pulling the binary leaves of a value out into numbered buffers, leaving a
 * placeholder for each, and putting them back.
 */
module Attachments {
  import opened Options
  import opened ByteSeqs

  /** A JSON value that may also hold binary leaves. */
  datatype Value =
    | Null
    | Bool(b: bool)
    | Num(n: real)
    | Str(s: string)
    | Bin(bytes: Bytes)
    | Arr(items: seq<Value>)
    | Obj(fields: map<string, Value>)

  const PLACEHOLDER := "_placeholder"
  const NUM := "num"

  function Placeholder(n: nat): Value {
    Obj(map[PLACEHOLDER := Bool(true), NUM := Num(n as real)])
  }

  /** How to reach a child, and how to reach a leaf. */
  datatype Step = Item(i: nat) | Field(k: string)
  type Path = seq<Step>

  /** The paths, starting with `pos`, of the binary leaves of the value at `pos`. */
  function BinPaths(v: Value, pos: Path): set<Path> {
    match v
    case Bin(_) => {pos}
    case Arr(items) => set i, p | 0 <= i < |items| && p in BinPaths(items[i], pos + [Item(i)]) :: p
    case Obj(m) => set k, p | k in m && p in BinPaths(m[k], pos + [Field(k)]) :: p
    case _ => {}
  }

  lemma {:induction false} BinPathsStart(v: Value, pos: Path)
    ensures forall p :: p in BinPaths(v, pos) ==> pos <= p
  {
    match v {
      case Arr(items) =>
        forall i | 0 <= i < |items|
          ensures forall p :: p in BinPaths(items[i], pos + [Item(i)]) ==> pos <= p
        {
          BinPathsStart(items[i], pos + [Item(i)]);
        }
      case Obj(m) =>
        forall k | k in m
          ensures forall p :: p in BinPaths(m[k], pos + [Field(k)]) ==> pos <= p
        {
          BinPathsStart(m[k], pos + [Field(k)]);
        }
      case _ =>
    }
  }

  predicate ContainsBinary(v: Value) {
    match v
    case Bin(_) => true
    case Arr(items) => exists i :: 0 <= i < |items| && ContainsBinary(items[i])
    case Obj(m) => exists k :: k in m && ContainsBinary(m[k])
    case _ => false
  }

  lemma {:induction false} ContainsBinaryIffPaths(v: Value, pos: Path)
    ensures ContainsBinary(v) <==> BinPaths(v, pos) != {}
  {
    match v {
      case Arr(items) =>
        forall i | 0 <= i < |items|
          ensures ContainsBinary(items[i]) <==> BinPaths(items[i], pos + [Item(i)]) != {}
        {
          ContainsBinaryIffPaths(items[i], pos + [Item(i)]);
        }
        if ContainsBinary(v) {
          var i :| 0 <= i < |items| && ContainsBinary(items[i]);
          var p :| p in BinPaths(items[i], pos + [Item(i)]);
          assert p in BinPaths(v, pos);
        }
      case Obj(m) =>
        forall k | k in m
          ensures ContainsBinary(m[k]) <==> BinPaths(m[k], pos + [Field(k)]) != {}
        {
          ContainsBinaryIffPaths(m[k], pos + [Field(k)]);
        }
        if ContainsBinary(v) {
          var k :| k in m && ContainsBinary(m[k]);
          var p :| p in BinPaths(m[k], pos + [Field(k)]);
          assert p in BinPaths(v, pos);
        }
      case _ =>
    }
  }

  // ----- what deconstruction leaves -----

  /** `v` with each binary leaf replaced by the placeholder that `num` gives its path. */
  function Substituted(v: Value, pos: Path, num: map<Path, nat>): Value {
    match v
    case Bin(_) => if pos in num then Placeholder(num[pos]) else v
    case Arr(items) => Arr(seq(|items|, i requires 0 <= i < |items| => Substituted(items[i], pos + [Item(i)], num)))
    case Obj(m) => Obj(map k | k in m :: Substituted(m[k], pos + [Field(k)], num))
    case _ => v
  }

  /** Every binary leaf's bytes are in the buffer with its number. */
  ghost predicate Carried(v: Value, pos: Path, num: map<Path, nat>, bufs: seq<Bytes>) {
    match v
    case Bin(b) => pos in num && num[pos] < |bufs| && bufs[num[pos]] == b
    case Arr(items) => forall i :: 0 <= i < |items| ==> Carried(items[i], pos + [Item(i)], num, bufs)
    case Obj(m) => forall k :: k in m ==> Carried(m[k], pos + [Field(k)], num, bufs)
    case _ => true
  }

  /** `num` gives each of its paths its own number, and uses exactly the numbers from `lo` up to `hi`. */
  ghost predicate Numbering(num: map<Path, nat>, lo: nat, hi: nat) {
    && (forall p :: p in num ==> lo <= num[p] < hi)
    && (forall p, q :: p in num && q in num && num[p] == num[q] ==> p == q)
    && (forall n :: lo <= n < hi ==> n in num.Values)
  }

  lemma {:induction false} NumberingCounts(num: map<Path, nat>, lo: nat, hi: nat)
    requires lo <= hi && Numbering(num, lo, hi)
    ensures |num.Keys| == hi - lo
    decreases hi
  {
    if lo == hi {
      assert num.Keys == {};
    } else {
      assert hi - 1 in num.Values;
      var p :| p in num && num[p] == hi - 1;
      var less := num - {p};
      assert less.Keys == num.Keys - {p};
      forall n | lo <= n < hi - 1
        ensures n in less.Values
      {
        assert n in num.Values;
        var q :| q in num && num[q] == n;
        assert q in less && less[q] == n;
      }
      NumberingCounts(less, lo, hi - 1);
    }
  }

  // ----- reconstruction -----

  predicate ClaimsPlaceholder(m: map<string, Value>) {
    PLACEHOLDER in m && m[PLACEHOLDER] == Bool(true)
  }

  function Reconstruct(v: Value, bufs: seq<Bytes>): Result<Value, ()> {
    match v
    case Arr(items) =>
      if forall i :: 0 <= i < |items| ==> Reconstruct(items[i], bufs).Ok? then
        Ok(Arr(seq(|items|, i requires 0 <= i < |items| => Reconstruct(items[i], bufs).value)))
      else Err(())
    case Obj(m) =>
      if ClaimsPlaceholder(m) then
        if NUM !in m || !m[NUM].Num? || m[NUM].n < 0.0 || m[NUM].n.Floor >= |bufs| then Err(())
        else Ok(Bin(bufs[m[NUM].n.Floor]))
      else if forall k :: k in m ==> Reconstruct(m[k], bufs).Ok? then
        Ok(Obj(map k | k in m :: Reconstruct(m[k], bufs).value))
      else Err(())
    case _ => Ok(v)
  }

  /** No object of the value passes itself off as a placeholder. */
  predicate NoFakes(v: Value) {
    match v
    case Arr(items) => forall i :: 0 <= i < |items| ==> NoFakes(items[i])
    case Obj(m) => !ClaimsPlaceholder(m) && forall k :: k in m ==> NoFakes(m[k])
    case _ => true
  }

  lemma {:induction false} PlaceholderIsRestored(n: nat, bufs: seq<Bytes>)
    requires n < |bufs|
    ensures Reconstruct(Placeholder(n), bufs) == Ok(Bin(bufs[n]))
  {
    var m := map[PLACEHOLDER := Bool(true), NUM := Num(n as real)];
    assert m[PLACEHOLDER] == Bool(true) && m[NUM] == Num(n as real);
    assert (n as real).Floor == n;
  }

  lemma SubstitutedKeepsClaims(m: map<string, Value>, pos: Path, num: map<Path, nat>)
    ensures var m' := Substituted(Obj(m), pos, num).fields;
            ClaimsPlaceholder(m') <==> ClaimsPlaceholder(m)
  {
  }

  /**
   * Putting the buffers back gives the original value exactly when no object of it claims to be a
   * placeholder already.
   */
  lemma {:induction false} RestoreExact(v: Value, pos: Path, num: map<Path, nat>, bufs: seq<Bytes>)
    requires Carried(v, pos, num, bufs)
    ensures Reconstruct(Substituted(v, pos, num), bufs) == Ok(v) <==> NoFakes(v)
  {
    match v {
      case Bin(_) =>
        PlaceholderIsRestored(num[pos], bufs);
      case Arr(items) =>
        forall i | 0 <= i < |items|
          ensures Reconstruct(Substituted(items[i], pos + [Item(i)], num), bufs) == Ok(items[i]) <==> NoFakes(items[i])
        {
          RestoreExact(items[i], pos + [Item(i)], num, bufs);
        }
        RestoreItems(items, pos, num, bufs);
      case Obj(m) =>
        forall k | k in m
          ensures Reconstruct(Substituted(m[k], pos + [Field(k)], num), bufs) == Ok(m[k]) <==> NoFakes(m[k])
        {
          RestoreExact(m[k], pos + [Field(k)], num, bufs);
        }
        SubstitutedKeepsClaims(m, pos, num);
        if !ClaimsPlaceholder(m) {
          RestoreFields(m, pos, num, bufs);
        }
      case _ =>
    }
  }

  lemma {:induction false} RestoreItems(items: seq<Value>, pos: Path, num: map<Path, nat>, bufs: seq<Bytes>)
    ensures Reconstruct(Substituted(Arr(items), pos, num), bufs) == Ok(Arr(items)) <==>
            forall i :: 0 <= i < |items| ==>
              Reconstruct(Substituted(items[i], pos + [Item(i)], num), bufs) == Ok(items[i])
  {
    var subs := Substituted(Arr(items), pos, num).items;
    var r := Reconstruct(Arr(subs), bufs);
    if r == Ok(Arr(items)) {
      forall i | 0 <= i < |items|
        ensures Reconstruct(subs[i], bufs) == Ok(items[i])
      {
        assert r.value.items[i] == Reconstruct(subs[i], bufs).value;
      }
    }
    if forall i :: 0 <= i < |items| ==> Reconstruct(subs[i], bufs) == Ok(items[i]) {
      assert r.Ok? && r.value.items == items;
    }
  }

  lemma {:induction false} RestoreFields(m: map<string, Value>, pos: Path, num: map<Path, nat>, bufs: seq<Bytes>)
    requires !ClaimsPlaceholder(m)
    ensures Reconstruct(Substituted(Obj(m), pos, num), bufs) == Ok(Obj(m)) <==>
            forall k :: k in m ==>
              Reconstruct(Substituted(m[k], pos + [Field(k)], num), bufs) == Ok(m[k])
  {
    var subs := Substituted(Obj(m), pos, num).fields;
    SubstitutedKeepsClaims(m, pos, num);
    var r := Reconstruct(Obj(subs), bufs);
    if r == Ok(Obj(m)) {
      forall k | k in m
        ensures Reconstruct(subs[k], bufs) == Ok(m[k])
      {
        assert r.value.fields[k] == Reconstruct(subs[k], bufs).value;
      }
    }
    if forall k :: k in m ==> Reconstruct(subs[k], bufs) == Ok(m[k]) {
      assert r.Ok? && r.value.fields == m;
    }
  }

  // ----- reconstruction on any input -----

  /** The value at a path, as far as reconstruction goes: it does not look inside a claimed placeholder. */
  function Reach(v: Value, path: Path): Option<Value>
    decreases |path|
  {
    if path == [] then Some(v)
    else
      match v
      case Arr(items) =>
        if path[0].Item? && path[0].i < |items| then Reach(items[path[0].i], path[1..]) else None
      case Obj(m) =>
        if !ClaimsPlaceholder(m) && path[0].Field? && path[0].k in m then Reach(m[path[0].k], path[1..]) else None
      case _ => None
  }

  /** An object that claims to be a placeholder. */
  predicate IsClaim(v: Value) {
    v.Obj? && "_placeholder" in v.fields && v.fields["_placeholder"] == Bool(true)
  }

  /** Its number is there and is the index of a buffer, its fraction cut off. */
  predicate HasBuffer(v: Value, bufs: seq<Bytes>)
    requires v.Obj?
  {
    "num" in v.fields && v.fields["num"].Num? && 0.0 <= v.fields["num"].n && v.fields["num"].n.Floor < |bufs|
  }

  ghost predicate ReachesBad(v: Value, bufs: seq<Bytes>) {
    exists path: Path :: BadAt(v, bufs, path)
  }

  predicate BadAt(v: Value, bufs: seq<Bytes>, path: Path) {
    var x := Reach(v, path);
    x.Some? && IsClaim(x.value) && !HasBuffer(x.value, bufs)
  }

  lemma {:induction false} BadBelow(v: Value, bufs: seq<Bytes>, s: Step, w: Value, path: Path)
    requires Reach(v, [s]) == Some(w)
    ensures BadAt(v, bufs, [s] + path) == BadAt(w, bufs, path)
  {
    assert ([s] + path)[1..] == path;
    assert [s][1..] == [];
  }

  /** Reconstruction fails exactly if it reaches a claimed placeholder without a buffer. */
  lemma {:induction false} ReconstructFailsIff(v: Value, bufs: seq<Bytes>)
    ensures Reconstruct(v, bufs).Err? <==> ReachesBad(v, bufs)
  {
    match v {
      case Arr(items) =>
        forall i | 0 <= i < |items|
          ensures Reconstruct(items[i], bufs).Err? <==> ReachesBad(items[i], bufs)
        {
          ReconstructFailsIff(items[i], bufs);
        }
        ArrFails(v, bufs);
      case Obj(m) =>
        if ClaimsPlaceholder(m) {
          ClaimFails(v, bufs);
        } else {
          forall k | k in m
            ensures Reconstruct(m[k], bufs).Err? <==> ReachesBad(m[k], bufs)
          {
            ReconstructFailsIff(m[k], bufs);
          }
          ObjFails(v, bufs);
        }
      case _ =>
        NothingBad(v, bufs);
    }
  }

  lemma {:induction false} NothingBad(v: Value, bufs: seq<Bytes>)
    requires !v.Arr? && !v.Obj?
    ensures !ReachesBad(v, bufs)
  {
    forall path: Path
      ensures !BadAt(v, bufs, path)
    {
    }
  }

  lemma {:induction false} ClaimFails(v: Value, bufs: seq<Bytes>)
    requires v.Obj? && ClaimsPlaceholder(v.fields)
    ensures Reconstruct(v, bufs).Err? <==> ReachesBad(v, bufs)
  {
    assert BadAt(v, bufs, []) <==> !HasBuffer(v, bufs);
    forall path: Path | path != []
      ensures !BadAt(v, bufs, path)
    {
    }
  }

  lemma {:induction false} ArrFails(v: Value, bufs: seq<Bytes>)
    requires v.Arr? && forall i :: 0 <= i < |v.items| ==>
                         (Reconstruct(v.items[i], bufs).Err? <==> ReachesBad(v.items[i], bufs))
    ensures Reconstruct(v, bufs).Err? <==> ReachesBad(v, bufs)
  {
    if ReachesBad(v, bufs) {
      var path: Path :| BadAt(v, bufs, path);
      assert path == [path[0]] + path[1..];
      BadBelow(v, bufs, path[0], v.items[path[0].i], path[1..]);
      assert ReachesBad(v.items[path[0].i], bufs);
    }
    if i :| 0 <= i < |v.items| && ReachesBad(v.items[i], bufs) {
      var path: Path :| BadAt(v.items[i], bufs, path);
      BadBelow(v, bufs, Item(i), v.items[i], path);
    }
  }

  lemma {:induction false} ObjFails(v: Value, bufs: seq<Bytes>)
    requires v.Obj? && !ClaimsPlaceholder(v.fields)
    requires forall k :: k in v.fields ==>
               (Reconstruct(v.fields[k], bufs).Err? <==> ReachesBad(v.fields[k], bufs))
    ensures Reconstruct(v, bufs).Err? <==> ReachesBad(v, bufs)
  {
    if ReachesBad(v, bufs) {
      var path: Path :| BadAt(v, bufs, path);
      assert path != [];
      assert path == [path[0]] + path[1..];
      BadBelow(v, bufs, path[0], v.fields[path[0].k], path[1..]);
      assert ReachesBad(v.fields[path[0].k], bufs);
    }
    if k :| k in v.fields && ReachesBad(v.fields[k], bufs) {
      var path: Path :| BadAt(v.fields[k], bufs, path);
      BadBelow(v, bufs, Field(k), v.fields[k], path);
    }
  }

  /** Where it succeeds, each placeholder it reaches has become its buffer, and every other leaf is as it was. */
  lemma {:induction false} ReconstructPuts(v: Value, bufs: seq<Bytes>, path: Path)
    requires Reconstruct(v, bufs).Ok? && Reach(v, path).Some?
    ensures var w, x := Reach(Reconstruct(v, bufs).value, path), Reach(v, path).value;
            && w.Some?
            && (IsClaim(x) ==> HasBuffer(x, bufs) && w == Some(Bin(bufs[x.fields["num"].n.Floor])))
            && (!x.Arr? && !x.Obj? ==> w == Some(x))
    decreases |path|
  {
    if path != [] {
      match v {
        case Arr(items) =>
          ReconstructPuts(items[path[0].i], bufs, path[1..]);
        case Obj(m) =>
          ReconstructPuts(m[path[0].k], bufs, path[1..]);
          StaysNoClaim(m, bufs);
      }
    }
  }

  lemma {:induction false} StaysNoClaim(m: map<string, Value>, bufs: seq<Bytes>)
    requires !ClaimsPlaceholder(m) && Reconstruct(Obj(m), bufs).Ok?
    ensures !ClaimsPlaceholder(Reconstruct(Obj(m), bufs).value.fields)
  {
  }

  // ----- extending a numbering -----

  /** More numbers and more buffers change nothing for a value whose leaves are all numbered. */
  lemma {:induction false} Extended(v: Value, pos: Path, num: map<Path, nat>, num': map<Path, nat>,
                                    bufs: seq<Bytes>, bufs': seq<Bytes>)
    requires BinPaths(v, pos) <= num.Keys <= num'.Keys && (forall p :: p in num ==> num'[p] == num[p])
    requires Carried(v, pos, num, bufs) && bufs <= bufs'
    ensures Substituted(v, pos, num') == Substituted(v, pos, num) && Carried(v, pos, num', bufs')
  {
    match v {
      case Arr(items) =>
        forall i | 0 <= i < |items|
          ensures Substituted(items[i], pos + [Item(i)], num') == Substituted(items[i], pos + [Item(i)], num)
          ensures Carried(items[i], pos + [Item(i)], num', bufs')
        {
          assert BinPaths(items[i], pos + [Item(i)]) <= BinPaths(v, pos);
          Extended(items[i], pos + [Item(i)], num, num', bufs, bufs');
        }
        assert Substituted(v, pos, num').items == Substituted(v, pos, num).items;
      case Obj(m) =>
        forall k | k in m
          ensures Substituted(m[k], pos + [Field(k)], num') == Substituted(m[k], pos + [Field(k)], num)
          ensures Carried(m[k], pos + [Field(k)], num', bufs')
        {
          assert BinPaths(m[k], pos + [Field(k)]) <= BinPaths(v, pos);
          Extended(m[k], pos + [Field(k)], num, num', bufs, bufs');
        }
        assert Substituted(v, pos, num').fields == Substituted(v, pos, num).fields;
      case _ =>
    }
  }

  // ----- the code -----

  /** The buffers collected so far, shared by all the calls of one traversal. */
  class BufferList {
    var items: seq<Bytes>

    constructor ()
      ensures items == []
    {
      items := [];
    }
  }

  /** What a traversal that took the buffers from `before` to `after` leaves of the value at `pos`. */
  ghost predicate Deconstructed(v: Value, pos: Path, clean: Value, num: map<Path, nat>,
                                before: seq<Bytes>, after: seq<Bytes>) {
    && before <= after
    && num.Keys == BinPaths(v, pos)
    && Numbering(num, |before|, |after|)
    && Carried(v, pos, num, after)
    && clean == Substituted(v, pos, num)
  }

  lemma {:induction false} NumberingJoins(a: map<Path, nat>, b: map<Path, nat>, lo: nat, mid: nat, hi: nat)
    requires Numbering(a, lo, mid) && Numbering(b, mid, hi) && a.Keys !! b.Keys && lo <= mid <= hi
    ensures Numbering(a + b, lo, hi)
  {
    forall n | lo <= n < hi
      ensures n in (a + b).Values
    {
      if n < mid {
        assert n in a.Values;
        var p :| p in a && a[p] == n;
        assert (a + b)[p] == n;
      } else {
        assert n in b.Values;
        var p :| p in b && b[p] == n;
        assert (a + b)[p] == n;
      }
    }
  }

  lemma {:induction false} SiblingsApart(v: Value, w: Value, pos: Path, s: Step, t: Step)
    requires s != t
    ensures BinPaths(v, pos + [s]) !! BinPaths(w, pos + [t])
  {
    BinPathsStart(v, pos + [s]);
    BinPathsStart(w, pos + [t]);
    forall p | p in BinPaths(v, pos + [s])
      ensures p !in BinPaths(w, pos + [t])
    {
      assert p[|pos|] == (pos + [s])[|pos|] == s;
      assert (pos + [t])[|pos|] == t;
    }
  }

  /** A part already traversed and the child traversed next, under the joint numbering. */
  lemma {:induction false} Join(done: Value, d: Value, num: map<Path, nat>,
                                child: Value, c: Value, more: map<Path, nat>,
                                pos: Path, s: Step, before: seq<Bytes>, mid: seq<Bytes>, after: seq<Bytes>)
    requires Deconstructed(done, pos, d, num, before, mid)
    requires Deconstructed(child, pos + [s], c, more, mid, after)
    requires BinPaths(done, pos) !! BinPaths(child, pos + [s])
    ensures before <= after
    ensures (num + more).Keys == BinPaths(done, pos) + BinPaths(child, pos + [s])
    ensures Numbering(num + more, |before|, |after|)
    ensures Carried(done, pos, num + more, after) && Substituted(done, pos, num + more) == d
    ensures Carried(child, pos + [s], num + more, after) && Substituted(child, pos + [s], num + more) == c
  {
    NumberingJoins(num, more, |before|, |mid|, |after|);
    Extended(done, pos, num, num + more, mid, after);
    Extended(child, pos + [s], more, num + more, after, after);
  }

  lemma {:induction false} ArrGrows(xs: seq<Value>, x: Value, pos: Path)
    ensures BinPaths(Arr(xs + [x]), pos) == BinPaths(Arr(xs), pos) + BinPaths(x, pos + [Item(|xs|)])
  {
    var ys, n := xs + [x], |xs|;
    forall p | p in BinPaths(Arr(ys), pos)
      ensures p in BinPaths(Arr(xs), pos) || p in BinPaths(x, pos + [Item(n)])
    {
      var i :| 0 <= i < |ys| && p in BinPaths(ys[i], pos + [Item(i)]);
      assert ys[i] == if i < n then xs[i] else x;
    }
    forall p | p in BinPaths(Arr(xs), pos)
      ensures p in BinPaths(Arr(ys), pos)
    {
      var i :| 0 <= i < n && p in BinPaths(xs[i], pos + [Item(i)]);
      assert ys[i] == xs[i];
    }
    assert ys[n] == x;
  }

  lemma ArrParts(xs: seq<Value>, x: Value, pos: Path, num: map<Path, nat>, bufs: seq<Bytes>)
    requires Carried(Arr(xs), pos, num, bufs) && Carried(x, pos + [Item(|xs|)], num, bufs)
    ensures Carried(Arr(xs + [x]), pos, num, bufs)
    ensures Substituted(Arr(xs + [x]), pos, num) ==
            Arr(Substituted(Arr(xs), pos, num).items + [Substituted(x, pos + [Item(|xs|)], num)])
  {
  }

  lemma {:induction false} ArrApart(xs: seq<Value>, x: Value, pos: Path)
    ensures BinPaths(Arr(xs), pos) !! BinPaths(x, pos + [Item(|xs|)])
  {
    forall j | 0 <= j < |xs|
      ensures BinPaths(xs[j], pos + [Item(j)]) !! BinPaths(x, pos + [Item(|xs|)])
    {
      SiblingsApart(xs[j], x, pos, Item(j), Item(|xs|));
    }
  }

  lemma {:induction false} ItemsStep(xs: seq<Value>, out: seq<Value>, num: map<Path, nat>,
                                     x: Value, c: Value, more: map<Path, nat>,
                                     pos: Path, before: seq<Bytes>, mid: seq<Bytes>, after: seq<Bytes>)
    requires Deconstructed(Arr(xs), pos, Arr(out), num, before, mid)
    requires Deconstructed(x, pos + [Item(|xs|)], c, more, mid, after)
    ensures Deconstructed(Arr(xs + [x]), pos, Arr(out + [c]), num + more, before, after)
  {
    ArrApart(xs, x, pos);
    Join(Arr(xs), Arr(out), num, x, c, more, pos, Item(|xs|), before, mid, after);
    ArrGrows(xs, x, pos);
    ArrParts(xs, x, pos, num + more, after);
  }

  lemma {:induction false} ObjGrows(m: map<string, Value>, k: string, x: Value, pos: Path)
    requires k !in m
    ensures BinPaths(Obj(m[k := x]), pos) == BinPaths(Obj(m), pos) + BinPaths(x, pos + [Field(k)])
  {
    var m' := m[k := x];
    assert m'[k] == x && forall j :: j in m ==> m'[j] == m[j];
    assert forall j, p :: j in m' && p in BinPaths(m'[j], pos + [Field(j)]) ==>
        p in BinPaths(Obj(m), pos) + BinPaths(x, pos + [Field(k)]);
  }

  lemma {:induction false} ObjParts(m: map<string, Value>, k: string, x: Value, pos: Path,
                                    num: map<Path, nat>, bufs: seq<Bytes>)
    requires k !in m && Carried(Obj(m), pos, num, bufs) && Carried(x, pos + [Field(k)], num, bufs)
    ensures Carried(Obj(m[k := x]), pos, num, bufs)
    ensures Substituted(Obj(m[k := x]), pos, num) ==
            Obj(Substituted(Obj(m), pos, num).fields[k := Substituted(x, pos + [Field(k)], num)])
  {
    var m' := m[k := x];
    assert m'[k] == x && forall j :: j in m ==> m'[j] == m[j];
    assert Substituted(Obj(m'), pos, num).fields ==
           Substituted(Obj(m), pos, num).fields[k := Substituted(x, pos + [Field(k)], num)];
  }

  lemma {:induction false} ObjApart(m: map<string, Value>, k: string, x: Value, pos: Path)
    requires k !in m
    ensures BinPaths(Obj(m), pos) !! BinPaths(x, pos + [Field(k)])
  {
    forall j | j in m
      ensures BinPaths(m[j], pos + [Field(j)]) !! BinPaths(x, pos + [Field(k)])
    {
      SiblingsApart(m[j], x, pos, Field(j), Field(k));
    }
  }

  lemma {:induction false} FieldsStep(m: map<string, Value>, out: map<string, Value>, num: map<Path, nat>,
                                      k: string, x: Value, c: Value, more: map<Path, nat>,
                                      pos: Path, before: seq<Bytes>, mid: seq<Bytes>, after: seq<Bytes>)
    requires k !in m
    requires Deconstructed(Obj(m), pos, Obj(out), num, before, mid)
    requires Deconstructed(x, pos + [Field(k)], c, more, mid, after)
    ensures Deconstructed(Obj(m[k := x]), pos, Obj(out[k := c]), num + more, before, after)
  {
    ObjApart(m, k, x, pos);
    Join(Obj(m), Obj(out), num, x, c, more, pos, Field(k), before, mid, after);
    ObjGrows(m, k, x, pos);
    ObjParts(m, k, x, pos, num + more, after);
  }

  lemma NothingYet(v: Value, pos: Path, bufs: seq<Bytes>)
    requires v == Arr([]) || v == Obj(map[])
    ensures Deconstructed(v, pos, v, map[], bufs, bufs)
  {
  }

  method DeconstructItems(items: seq<Value>, buffers: BufferList, ghost pos: Path)
    returns (out: seq<Value>, ghost num: map<Path, nat>)
    modifies buffers
    ensures Deconstructed(Arr(items), pos, Arr(out), num, old(buffers.items), buffers.items)
    decreases Arr(items), 0
  {
    hide Carried, Numbering, Substituted;
    out, num := [], map[];
    NothingYet(Arr([]), pos, buffers.items);
    for i := 0 to |items|
      invariant Deconstructed(Arr(items[..i]), pos, Arr(out), num, old(buffers.items), buffers.items)
    {
      ghost var mid := buffers.items;
      var c, more := Deconstruct(items[i], buffers, pos + [Item(i)]);
      ItemsStep(items[..i], out, num, items[i], c, more, pos, old(buffers.items), mid, buffers.items);
      assert items[..i + 1] == items[..i] + [items[i]];
      out, num := out + [c], num + more;
    }
    assert items[..|items|] == items;
  }

  /** The fields may come in any order. */
  method DeconstructFields(m: map<string, Value>, buffers: BufferList, ghost pos: Path)
    returns (out: map<string, Value>, ghost num: map<Path, nat>)
    modifies buffers
    ensures Deconstructed(Obj(m), pos, Obj(out), num, old(buffers.items), buffers.items)
    decreases Obj(m), 0
  {
    hide Carried, Numbering, Substituted;
    out, num := map[], map[];
    NothingYet(Obj(map[]), pos, buffers.items);
    var todo := m.Keys;
    assert m - todo == map[];
    while todo != {}
      invariant todo <= m.Keys
      invariant Deconstructed(Obj(m - todo), pos, Obj(out), num, old(buffers.items), buffers.items)
      decreases todo
    {
      var k :| k in todo;
      ghost var mid := buffers.items;
      var c, more := Deconstruct(m[k], buffers, pos + [Field(k)]);
      FieldsStep(m - todo, out, num, k, m[k], c, more, pos, old(buffers.items), mid, buffers.items);
      assert m - (todo - {k}) == (m - todo)[k := m[k]];
      out, num, todo := out[k := c], num + more, todo - {k};
    }
    assert m - todo == m;
  }

  /** The traversal: a binary leaf goes to the end of the buffers, and its number into a placeholder. */
  method Deconstruct(v: Value, buffers: BufferList, ghost pos: Path) returns (clean: Value, ghost num: map<Path, nat>)
    modifies buffers
    ensures Deconstructed(v, pos, clean, num, old(buffers.items), buffers.items)
    decreases v, 1
  {
    match v
    case Bin(b) =>
      var n := |buffers.items|;
      buffers.items := buffers.items + [b];
      clean, num := Placeholder(n), map[pos := n];
      assert num[pos] == n && n in num.Values;
    case Arr(items) =>
      var out;
      out, num := DeconstructItems(items, buffers, pos);
      clean := Arr(out);
    case Obj(m) =>
      var out;
      out, num := DeconstructFields(m, buffers, pos);
      clean := Obj(out);
    case _ =>
      clean, num := v, map[];
  }

  /** The text-ready part of a value and its buffers; a value without binary leaves is left alone. */
  method SplitBinary(v: Value) returns (clean: Value, buffers: seq<Bytes>)
    ensures !ContainsBinary(v) ==> clean == v && buffers == []
    ensures |buffers| == |BinPaths(v, [])| && (|buffers| > 0 <==> ContainsBinary(v))
    ensures exists num :: Deconstructed(v, [], clean, num, [], buffers)
    ensures Reconstruct(clean, buffers) == Ok(v) <==> NoFakes(v)
  {
    ContainsBinaryIffPaths(v, []);
    ghost var num: map<Path, nat> := map[];
    if !ContainsBinary(v) {
      clean, buffers := v, [];
      NothingToSubstitute(v, []);
    } else {
      var list := new BufferList();
      clean, num := Deconstruct(v, list, []);
      buffers := list.items;
    }
    assert Deconstructed(v, [], clean, num, [], buffers);
    NumberingCounts(num, 0, |buffers|);
    RestoreExact(v, [], num, buffers);
  }

  lemma {:induction false} NothingToSubstitute(v: Value, pos: Path)
    requires BinPaths(v, pos) == {}
    ensures Substituted(v, pos, map[]) == v && Carried(v, pos, map[], [])
  {
    match v {
      case Arr(items) =>
        forall i | 0 <= i < |items|
          ensures Substituted(items[i], pos + [Item(i)], map[]) == items[i]
          ensures Carried(items[i], pos + [Item(i)], map[], [])
        {
          assert forall p :: p in BinPaths(items[i], pos + [Item(i)]) ==> p in BinPaths(v, pos);
          NothingToSubstitute(items[i], pos + [Item(i)]);
        }
        assert Substituted(v, pos, map[]).items == items;
      case Obj(m) =>
        forall k | k in m
          ensures Substituted(m[k], pos + [Field(k)], map[]) == m[k] && Carried(m[k], pos + [Field(k)], map[], [])
        {
          assert forall p :: p in BinPaths(m[k], pos + [Field(k)]) ==> p in BinPaths(v, pos);
          NothingToSubstitute(m[k], pos + [Field(k)]);
        }
        assert Substituted(v, pos, map[]).fields == m;
      case _ =>
    }
  }
}
