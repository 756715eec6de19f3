/** uvmfree and freewalk (kernel/vm.c): a dead process gives back its pages and its tables. */
module Teardown {
  import opened RiscV
  import opened SwapModel
  import opened SwapOps
  import opened UserMemory

  /** Table page `u` hangs directly off table page `t`. */
  predicate HangsOff(u: TKey, t: TKey) {
    && u.root == t.root && u.level + 1 == t.level
    && (t.level == 1 ==> u.prefix / 0x200 == t.prefix)
  }

  function Children(tables: map<TKey, nat>, t: TKey): set<TKey> { set u | u in tables && HangsOff(u, t) }

  /** The table pages freewalk visits from `t`. */
  function Subtree(tables: map<TKey, nat>, t: TKey): set<TKey> {
    set u | u in tables && u.root == t.root &&
            (u == t || HangsOff(u, t) || (t.level == 2 && u.level == 0))
  }

  predicate NoLeaves(ptes: map<Key, Pte>, root: nat) { forall k {:trigger k in ptes} :: k in ptes ==> k.root != root }

  /** `t` leaves the tree; its frame is held until kfree. */
  function DropTable(s: State, t: TKey): State
    requires t in s.tables
  {
    var f := s.tables[t];
    s.(tables := s.tables - {t}, tableAt := s.tableAt - {f}, role := s.role[f := Out])
  }

  lemma DropFrames(s: State, t: TKey)
    requires TablesOk(s.tables, s.tableAt, s.role) && t in s.tables
    ensures var n := DropTable(s, t); TablesOk(n.tables, n.tableAt, n.role)
  {
    var n := DropTable(s, t);
    forall g | g in n.role && n.role[g] == Table ensures TableFrame(n.tables, n.tableAt, g) {
      assert TableFrame(s.tables, s.tableAt, g);
    }
  }

  lemma DropTree(s: State, t: TKey)
    requires TreeOk(s.tables) && t in s.tables && Children(s.tables, t) == {}
    ensures TreeOk(s.tables - {t})
  {
    var tables := s.tables - {t};
    assert forall u :: u in s.tables ==> !HangsOff(u, t) by {
      forall u | u in s.tables ensures !HangsOff(u, t) { assert u !in Children(s.tables, t); }
    }
    assert Hung(s.tables, t);
    forall u | u in tables ensures Hung(tables, u) {
      assert Hung(s.tables, u);
      if u.level == 0 {
        var mid := TKey(u.root, 1, u.prefix / 0x200);
        assert mid in s.tables && HangsOff(u, mid);
        assert HangsOff(mid, Root(u.root));
      }
      assert u.level == 1 ==> HangsOff(u, Root(u.root));
    }
  }

  lemma DropWalks(s: State, t: TKey)
    requires WalksOk(s.ptes, s.tables) && NoLeaves(s.ptes, t.root)
    ensures WalksOk(s.ptes, s.tables - {t})
  {
    forall k | k in s.ptes ensures Walks(s.tables - {t}, k) { assert Walks(s.tables, k); }
  }

  lemma DropPtes(s: State, f: nat)
    requires PtesOk(s.ptes, s.role, s.used) && f in s.role && s.role[f] == Table
    ensures PtesOk(s.ptes, s.role[f := Out], s.used)
  {}

  lemma DropInv(s: State, t: TKey)
    requires Inv(s) && t in s.tables && Children(s.tables, t) == {} && NoLeaves(s.ptes, t.root)
    ensures s.tables[t] in s.role && s.role[s.tables[t]] == Table
    ensures Inv(DropTable(s, t)) && Held(DropTable(s, t), s.tables[t])
  {
    hide Lists, BackOk, TreeOk, PtesOk, Unshared, SlotsOk, SwapArea, WalksOk;
    var f := s.tables[t];
    DropFrames(s, t);
    DropTree(s, t);
    DropWalks(s, t);
    DropPtes(s, f);
    ListsSkip(s.free, s.role, Free, f, Out);
    ListsSkip(s.ring, s.role, Listed, f, Out);
  }

  /** kfree of a table page with nothing below it. */
  function FreeTable(s: State, t: TKey): (n: State)
    requires Inv(s) && t in s.tables && Children(s.tables, t) == {} && NoLeaves(s.ptes, t.root)
    ensures Inv(n) && Memory(n) == Memory(s) && Outs(n) == Outs(s)
    ensures n.tables == s.tables - {t} && n.ptes == s.ptes && n.used == s.used
    ensures n.free == [s.tables[t]] + s.free && n.mem.Keys == s.mem.Keys
  {
    hide Inv, Memory;
    DropInv(s, t);
    InvFrames(s);
    MemoryKeeps(s, DropTable(s, t));
    Kfree(DropTable(s, t), s.tables[t])
  }

  lemma InvFrames(s: State)
    requires Inv(s)
    ensures s.mem.Keys == s.role.Keys
  {}

  predicate Least(q: set<TKey>, c: TKey) { c in q && forall u {:trigger u in q} :: u in q ==> c.prefix <= u.prefix }

  /** The child with the least index, which freewalk's loop comes to first. */
  ghost function FirstChild(tables: map<TKey, nat>, t: TKey): (c: TKey)
    requires Children(tables, t) != {}
    ensures c in tables && HangsOff(c, t) && Least(Children(tables, t), c)
  {
    LeastChild(Children(tables, t));
    var c :| Least(Children(tables, t), c);
    c
  }

  lemma {:induction false} LeastChild(q: set<TKey>)
    requires q != {}
    ensures exists c :: Least(q, c)
  {
    var x :| x in q;
    if q == {x} {
      assert Least(q, x);
    } else {
      LeastChild(q - {x});
      var c :| Least(q - {x}, c);
      LeastOfTwo(q, x, c);
    }
  }

  lemma LeastOfTwo(q: set<TKey>, x: TKey, c: TKey)
    requires x in q && Least(q - {x}, c)
    ensures Least(q, if x.prefix <= c.prefix then x else c)
  {
    forall u | u in q ensures u == x || u in q - {x} {}
  }

  /** Walking the first child and then the rest visits the whole subtree, nothing twice. */
  lemma SubtreeSplit(tables: map<TKey, nat>, t: TKey, c: TKey)
    requires t in tables && c in tables && HangsOff(c, t) && t.level <= 2
    ensures var rest := tables - Subtree(tables, c);
      && t in rest && c !in rest && rest.Keys < tables.Keys
      && Subtree(tables, c) !! Subtree(rest, t)
      && Subtree(tables, t) == Subtree(tables, c) + Subtree(rest, t)
  {
    var rest := tables - Subtree(tables, c);
    assert c in Subtree(tables, c) && t !in Subtree(tables, c);
    forall u ensures u in Subtree(tables, t) <==> u in Subtree(tables, c) || u in Subtree(rest, t) {}
  }

  lemma Childless(tables: map<TKey, nat>, t: TKey)
    requires TreeOk(tables) && t in tables && Children(tables, t) == {}
    ensures Subtree(tables, t) == {t}
  {
    forall u ensures u in Subtree(tables, t) ==> u == t {
      var mid := TKey(u.root, 1, u.prefix / 0x200);
      assert u !in Children(tables, t) && mid !in Children(tables, t);
      assert u in tables ==> Hung(tables, u);
    }
  }

  /** freewalk(t): the tables below first, then `t` itself. */
  ghost function FreeWalk(s: State, t: TKey): (n: State)
    requires Inv(s) && t in s.tables && NoLeaves(s.ptes, t.root)
    ensures Inv(n) && Memory(n) == Memory(s) && Outs(n) == Outs(s)
    ensures n.tables == s.tables - Subtree(s.tables, t) && n.ptes == s.ptes && n.used == s.used
    ensures |n.free| == |s.free| + |Subtree(s.tables, t)| && n.mem.Keys == s.mem.Keys
    decreases s.tables.Keys, t.level
  {
    hide Inv, Memory, Outs, Subtree, Children;
    InvTree(s, t);
    if Children(s.tables, t) == {} then
      Childless(s.tables, t);
      FreeTable(s, t)
    else
      var c := FirstChild(s.tables, t);
      SubtreeSplit(s.tables, t, c);
      var m := FreeWalk(s, c);
      var n := FreeWalk(m, t);
      assert s.tables - Subtree(s.tables, c) - Subtree(m.tables, t) == s.tables - Subtree(s.tables, t);
      n
  }

  lemma InvTree(s: State, t: TKey)
    requires Inv(s) && t in s.tables
    ensures TreeOk(s.tables) && t.level <= 2
  {
    assert Hung(s.tables, t);
  }

  /** uvmfree may be called: the process has exactly the pages below its size. */
  ghost predicate CanFree(s: State, root: nat, n: nat) {
    && Inv(s) && Root(root) in s.tables && Range(root, 0, n) <= Memory(s).Keys
    && forall k {:trigger k in s.ptes} :: k in s.ptes && k.root == root ==> k in Range(root, 0, n)
  }

  /** uvmfree: pages, slots and tables of `root` all go back, and other processes keep theirs. */
  ghost function UvmFree(s: State, root: nat, n: nat): (t: State)
    requires CanFree(s, root, n)
    ensures Inv(t) && Memory(t) == Memory(s) - Range(root, 0, n) && Outs(t) == Outs(s)
    ensures t.tables == map u | u in s.tables && u.root != root :: s.tables[u]
    ensures NoLeaves(t.ptes, root)
  {
    hide Inv, Memory, Outs, UvmUnmap;
    var m := UvmUnmap(s, root, 0, n);
    MemoryKeys(s);
    MemoryKeys(m);
    var t := FreeWalk(m, Root(root));
    WholeTree(m, root);
    t
  }

  lemma WholeTree(s: State, root: nat)
    requires Inv(s)
    ensures Subtree(s.tables, Root(root)) == set u | u in s.tables && u.root == root
  {
    hide Lists, BackOk, TablesOk, PtesOk, Unshared, SlotsOk, SwapArea, WalksOk;
    forall u | u in s.tables ensures Hung(s.tables, u) {}
  }

  /** Once every process is torn down and every frame lent out is returned, all memory is
      free again and no swap slot is taken: nothing has leaked. */
  lemma NothingLeaks(s: State)
    requires Inv(s) && Outs(s) == {} && forall r: nat {:trigger Root(r)} :: Root(r) !in s.tables
    ensures s.ring == [] && s.used == {} && s.tables == map[] && s.ptes == map[]
    ensures forall f {:trigger f in s.free} :: f in s.free <==> f in s.mem
  {
    assert s.ring != [] ==> s.ring[0] in s.ring;
    forall u ensures u !in s.tables {
      assert u in s.tables ==> Hung(s.tables, u);
      assert Root(u.root) !in s.tables;
    }
    forall k ensures k !in s.ptes { assert k in s.ptes ==> Walks(s.tables, k); }
    forall i: nat ensures i !in s.used { assert i in s.used ==> SlotHeld(s.owner, s.ptes, i); }
    forall f | f in s.mem ensures f in s.free {
      assert f !in Outs(s) && f !in s.ring;
      assert s.role[f] == Table ==> TableFrame(s.tables, s.tableAt, f);
    }
  }
}
