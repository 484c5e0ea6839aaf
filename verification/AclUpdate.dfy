/** The update loop of `acl/acl_update.c` for one file: each entry of the list is applied in
    turn, the mask is recalculated if asked, and the result must be valid. */
module AclUpdate {
  import opened Options
  import opened AclText
  import opened AclParser
  import opened AclEntries

  /** The options -m or -x, and the absence of -n. */
  datatype Mode = Mode(remove: bool, recalcMask: bool)

  function Step(acl: List, e: AccessControlEntry, mode: Mode): List {
    var k := KeyOfEntry(e);
    var a := if mode.remove then DeleteKey(acl, k) else SetKey(acl, k, e.perms);
    if mode.recalcMask then CalcMask(a) else a
  }

  /** The final ACL, or None when an intermediate one is not valid and the program gives up. */
  function Run(acl: List, es: List, mode: Mode): Option<List>
    decreases |es|
  {
    if es == [] then Some(acl)
    else
      var a := Step(acl, es[0], mode);
      if Valid(a) then Run(a, es[1..], mode) else None
  }

  /** How many entries of the list are applied before the program gives up. */
  function Applied(acl: List, es: List, mode: Mode): nat
    decreases |es|
  {
    if es == [] || !Valid(Step(acl, es[0], mode)) then 0 else 1 + Applied(Step(acl, es[0], mode), es[1..], mode)
  }

  /** They are the longest part of the list, from its start, on which a run succeeds. */
  lemma {:induction false} AppliedIsLongest(acl: List, es: List, mode: Mode)
    ensures Applied(acl, es, mode) <= |es|
    ensures forall m :: 0 <= m <= |es| ==> (Run(acl, es[..m], mode).Some? <==> m <= Applied(acl, es, mode))
    decreases |es|
  {
    forall m | 0 < m <= |es|
      ensures Run(acl, es[..m], mode).Some? <==> m <= Applied(acl, es, mode)
    {
      var a := Step(acl, es[0], mode);
      assert es[..m][1..] == es[1..][..m - 1];
      if Valid(a) { AppliedIsLongest(a, es[1..], mode); }
    }
    if es != [] && Valid(Step(acl, es[0], mode)) { AppliedIsLongest(Step(acl, es[0], mode), es[1..], mode); }
  }

  /** What the program leaves in a file that held `stored`: the ACL after the last of them. */
  function Saved(acl: List, stored: List, es: List, mode: Mode): List {
    AppliedIsLongest(acl, es, mode);
    var n := Applied(acl, es, mode);
    if n == 0 then stored else Run(acl, es[..n], mode).value
  }

  lemma {:induction false} RunSnoc(acl: List, es: List, n: nat, mode: Mode)
    requires n < |es| && Run(acl, es[..n], mode).Some?
    ensures var a := Step(Run(acl, es[..n], mode).value, es[n], mode);
            Run(acl, es[..n + 1], mode) == if Valid(a) then Some(a) else None
    decreases n
  {
    assert es[..n + 1][1..] == es[1..][..n];
    if n > 0 {
      assert es[..n][1..] == es[1..][..n - 1];
      RunSnoc(Step(acl, es[0], mode), es[1..], n - 1, mode);
    }
  }

  /** The permissions of the last entry with the key. */
  function LastPerms(es: List, k: Key): Option<Perms> {
    if es == [] then None
    else
      var later := LastPerms(es[1..], k);
      if later.None? && KeyOfEntry(es[0]) == k then Some(es[0].perms) else later
  }

  /** Keys that the run itself does not set. */
  predicate Free(k: Key, mode: Mode) { k != MASK_KEY || !mode.recalcMask }

  // ---------------------------------------------------------------- one step

  /** Changing the mask does not change the union. */
  lemma UnionSame(a: List, b: List)
    requires Unique(a) && Unique(b)
    requires forall k :: k != MASK_KEY ==> Lookup(a, k) == Lookup(b, k)
    ensures Union(a) == Union(b)
  {
    UnionPart(a, b, (p: Perms) => p.r);
    UnionPart(a, b, (p: Perms) => p.w);
    UnionPart(a, b, (p: Perms) => p.x);
  }

  lemma UnionPart(a: List, b: List, has: Perms -> bool)
    requires Unique(a) && Unique(b)
    requires forall k :: k != MASK_KEY ==> Lookup(a, k) == Lookup(b, k)
    requires forall p, q :: has(Or(p, q)) <==> has(p) || has(q)
    requires !has(NO_PERMS)
    ensures has(Union(a)) <==> has(Union(b))
  {
    UnionIs(a, has);
    UnionIs(b, has);
    if i: nat :| GrantedBy(a, has, i) { GrantedMoves(a, b, has, i); }
    if i: nat :| GrantedBy(b, has, i) { GrantedMoves(b, a, has, i); }
  }

  lemma GrantedMoves(a: List, b: List, has: Perms -> bool, i: nat)
    requires Unique(a) && GrantedBy(a, has, i)
    requires forall k :: k != MASK_KEY ==> Lookup(a, k) == Lookup(b, k)
    ensures GrantedBy(b, has, Find(b, KeyOfEntry(a[i])))
  {
    UniqueFind(a, i);
  }

  lemma MaskIsUnion(acl: List)
    requires Unique(acl)
    ensures Unique(CalcMask(acl))
    ensures forall k :: Lookup(CalcMask(acl), k) == if k == MASK_KEY then Some(Union(CalcMask(acl))) else Lookup(acl, k)
  {
    SetKeyUnique(acl, MASK_KEY, Union(acl));
    forall k ensures Lookup(CalcMask(acl), k) == if k == MASK_KEY then Some(Union(acl)) else Lookup(acl, k) {
      SetKeyLookup(acl, MASK_KEY, Union(acl), k);
    }
    UnionSame(acl, CalcMask(acl));
  }

  lemma StepIs(acl: List, e: AccessControlEntry, mode: Mode)
    requires Unique(acl)
    ensures Unique(Step(acl, e, mode))
    ensures forall k :: Free(k, mode) ==>
              Lookup(Step(acl, e, mode), k) ==
              if k != KeyOfEntry(e) then Lookup(acl, k) else if mode.remove then None else Some(e.perms)
    ensures mode.recalcMask ==> Lookup(Step(acl, e, mode), MASK_KEY) == Some(Union(Step(acl, e, mode)))
  {
    var key := KeyOfEntry(e);
    var a := if mode.remove then DeleteKey(acl, key) else SetKey(acl, key, e.perms);
    if mode.remove { DeleteKeyUnique(acl, key); } else { SetKeyUnique(acl, key, e.perms); }
    if mode.recalcMask { MaskIsUnion(a); }
    forall k | Free(k, mode)
      ensures Lookup(Step(acl, e, mode), k) ==
              if k != key then Lookup(acl, k) else if mode.remove then None else Some(e.perms)
    {
      if mode.remove { DeleteKeyLookup(acl, key, k); } else { SetKeyLookup(acl, key, e.perms, k); }
    }
  }

  // ---------------------------------------------------------------- whole runs

  /** What a key is bound to after a run: named keys as the list says, others as before. */
  function After(es: List, k: Key, before: Option<Perms>, mode: Mode): Option<Perms> {
    match LastPerms(es, k)
    case None => before
    case Some(perms) => if mode.remove then None else Some(perms)
  }

  lemma AfterOne(es: List, k: Key, before: Option<Perms>, mode: Mode)
    requires es != []
    ensures var e := es[0];
            var between := if k != KeyOfEntry(e) then before else if mode.remove then None else Some(e.perms);
            After(es[1..], k, between, mode) == After(es, k, before, mode)
  {
  }

  /** A successful run from an ACL with unique keys keeps them unique, leaves the keys that
      are not named alone, and binds each named key to the permissions of its last occurrence
      (-m) or removes it (-x); the mask is the union of the group class if it is recalculated. */
  lemma {:induction false} RunIs(acl: List, es: List, mode: Mode)
    requires Unique(acl) && Run(acl, es, mode).Some?
    ensures Unique(Run(acl, es, mode).value)
    ensures forall k :: Free(k, mode) ==>
              Lookup(Run(acl, es, mode).value, k) == After(es, k, Lookup(acl, k), mode)
    ensures mode.recalcMask && es != [] ==>
              Lookup(Run(acl, es, mode).value, MASK_KEY) == Some(Union(Run(acl, es, mode).value))
    ensures es != [] ==> Valid(Run(acl, es, mode).value)
    decreases |es|
  {
    if es != [] {
      var a, f := Step(acl, es[0], mode), Run(acl, es, mode).value;
      StepIs(acl, es[0], mode);
      RunIs(a, es[1..], mode);
      forall k | Free(k, mode) ensures Lookup(f, k) == After(es, k, Lookup(acl, k), mode) {
        AfterOne(es, k, Lookup(acl, k), mode);
      }
    }
  }

  predicate Granting(e: AccessControlEntry, has: Perms -> bool) {
    (e.tag == User || e.tag == GroupObj || e.tag == Group) && has(e.perms)
  }

  /** After a run that recalculates it, the mask grants exactly what some named user, named
      group or the owning group is granted. */
  lemma MaskGrants(acl: List, es: List, mode: Mode)
    requires Unique(acl) && Run(acl, es, mode).Some? && mode.recalcMask && es != []
    ensures var f := Run(acl, es, mode).value;
            && Lookup(f, MASK_KEY).Some?
            && var mask := Lookup(f, MASK_KEY).value;
               && (mask.r <==> exists e :: e in f && Granting(e, (p: Perms) => p.r))
               && (mask.w <==> exists e :: e in f && Granting(e, (p: Perms) => p.w))
               && (mask.x <==> exists e :: e in f && Granting(e, (p: Perms) => p.x))
  {
    var f := Run(acl, es, mode).value;
    RunIs(acl, es, mode);
    UnionGrants(f, (p: Perms) => p.r);
    UnionGrants(f, (p: Perms) => p.w);
    UnionGrants(f, (p: Perms) => p.x);
  }

  lemma UnionGrants(f: List, has: Perms -> bool)
    requires forall p, q :: has(Or(p, q)) <==> has(p) || has(q)
    requires !has(NO_PERMS)
    ensures has(Union(f)) <==> exists e :: e in f && Granting(e, has)
  {
    UnionIs(f, has);
    if i: nat :| GrantedBy(f, has, i) { assert f[i] in f && Granting(f[i], has); }
    if e :| e in f && Granting(e, has) {
      var i: nat :| i < |f| && f[i] == e;
      assert GrantedBy(f, has, i);
    }
  }

  /** -x after -m with the same list: named keys are gone, the others as before both. */
  lemma RemoveAfterModify(acl: List, es: List, mode: Mode)
    requires !mode.remove && Unique(acl) && Run(acl, es, mode).Some?
    requires Run(Run(acl, es, mode).value, es, mode.(remove := true)).Some?
    ensures var f := Run(Run(acl, es, mode).value, es, mode.(remove := true)).value;
            forall k :: Free(k, mode) ==> Lookup(f, k) == if LastPerms(es, k).Some? then None else Lookup(acl, k)
  {
    RunIs(acl, es, mode);
    RunIs(Run(acl, es, mode).value, es, mode.(remove := true));
  }

  // ---------------------------------------------------------------- -m twice

  predicate SameKeys(a: List, b: List) {
    |a| == |b| && forall i :: 0 <= i < |a| ==> KeyOfEntry(a[i]) == KeyOfEntry(b[i]) && a[i].qual == b[i].qual
  }

  lemma SetPresentKey(acl: List, k: Key, perms: Perms)
    requires Has(acl, k)
    ensures SameKeys(acl, SetKey(acl, k, perms))
  {
  }

  lemma SameKeysHave(a: List, b: List)
    requires SameKeys(a, b)
    ensures forall k :: Has(a, k) == Has(b, k)
    ensures Valid(a) ==> Valid(b)
  {
    forall k ensures Has(a, k) == Has(b, k) {
      HasIs(a, k);
      HasIs(b, k);
      if Has(a, k) { assert KeyOfEntry(b[Find(a, k)]) == k; }
      if Has(b, k) { assert KeyOfEntry(a[Find(b, k)]) == k; }
    }
    if Valid(a) {
      if i :| 0 <= i < |b| && Named(b[i].tag) {
        assert KeyOfEntry(a[i]) == KeyOfEntry(b[i]);
      }
    }
  }

  /** When all keys are there already, a run only changes permissions and cannot fail. */
  lemma {:induction false} RunOnPresent(acl: List, es: List, mode: Mode)
    requires !mode.remove && Valid(acl) && (mode.recalcMask ==> Has(acl, MASK_KEY))
    requires forall e :: e in es ==> Has(acl, KeyOfEntry(e))
    ensures Run(acl, es, mode).Some? && SameKeys(acl, Run(acl, es, mode).value)
    decreases |es|
  {
    if es != [] {
      var e := es[0];
      assert Has(acl, KeyOfEntry(e));
      var a := SetKey(acl, KeyOfEntry(e), e.perms);
      SetPresentKey(acl, KeyOfEntry(e), e.perms);
      SameKeysHave(acl, a);
      if mode.recalcMask {
        SetPresentKey(a, MASK_KEY, Union(a));
        SameKeysHave(a, CalcMask(a));
      }
      RunOnPresent(Step(acl, e, mode), es[1..], mode);
    }
  }

  lemma {:induction false} LastPermsIs(es: List, k: Key)
    ensures LastPerms(es, k).Some? <==> exists e :: e in es && KeyOfEntry(e) == k
  {
    if es != [] { LastPermsIs(es[1..], k); }
  }

  lemma SameKeysSameLookups(a: List, b: List)
    requires Unique(a) && Unique(b) && SameKeys(a, b) && forall k :: Lookup(a, k) == Lookup(b, k)
    ensures a == b
  {
    forall i | 0 <= i < |a| ensures a[i] == b[i] {
      UniqueFind(a, i);
      UniqueFind(b, i);
    }
  }

  lemma AllPresentAfter(acl: List, es: List, mode: Mode)
    requires !mode.remove && Unique(acl) && es != [] && Run(acl, es, mode).Some?
    ensures var f := Run(acl, es, mode).value;
            && Valid(f) && (mode.recalcMask ==> Has(f, MASK_KEY))
            && forall e :: e in es ==> Has(f, KeyOfEntry(e))
  {
    var f := Run(acl, es, mode).value;
    RunIs(acl, es, mode);
    forall e | e in es ensures Has(f, KeyOfEntry(e)) {
      LastPermsIs(es, KeyOfEntry(e));
      assert Free(KeyOfEntry(e), mode) || Lookup(f, MASK_KEY).Some?;
    }
  }

  /** Two lists that agree on all keys but a recalculated mask agree on that too. */
  lemma MaskFollows(f: List, g: List, mode: Mode)
    requires Unique(f) && Unique(g) && forall k :: Free(k, mode) ==> Lookup(f, k) == Lookup(g, k)
    requires mode.recalcMask ==> Lookup(f, MASK_KEY) == Some(Union(f)) && Lookup(g, MASK_KEY) == Some(Union(g))
    ensures forall k :: Lookup(f, k) == Lookup(g, k)
  {
    if mode.recalcMask { UnionSame(f, g); }
  }

  /** Applying the same -m again changes nothing, not even the order of the entries. */
  lemma ModifyTwice(acl: List, es: List, mode: Mode)
    requires !mode.remove && Unique(acl) && es != [] && Run(acl, es, mode).Some?
    ensures Run(Run(acl, es, mode).value, es, mode) == Run(acl, es, mode)
  {
    var f := Run(acl, es, mode).value;
    RunIs(acl, es, mode);
    AllPresentAfter(acl, es, mode);
    RunOnPresent(f, es, mode);
    RunIs(f, es, mode);
    var g := Run(f, es, mode).value;
    MaskFollows(f, g, mode);
    SameKeysSameLookups(f, g);
  }

  // ---------------------------------------------------------------- when a run succeeds

  predicate Required(tag: Tag) { tag == UserObj || tag == GroupObj || tag == Other }

  predicate HasNamed(acl: List) { exists i :: 0 <= i < |acl| && Named(acl[i].tag) }

  predicate NamedIn(acl: List, k: Key) { Named(k.tag) && Has(acl, k) }

  lemma HasNamedIs(acl: List)
    ensures HasNamed(acl) <==> exists k :: NamedIn(acl, k)
  {
    if i :| 0 <= i < |acl| && Named(acl[i].tag) {
      HasIs(acl, KeyOfEntry(acl[i]));
      assert NamedIn(acl, KeyOfEntry(acl[i]));
    }
  }

  /** What -m does to validity: only a missing mask can spoil it. */
  lemma SetKeyValid(acl: List, e: AccessControlEntry)
    requires Valid(acl)
    ensures var a := SetKey(acl, KeyOfEntry(e), e.perms);
            && Unique(a)
            && (forall k :: Has(a, k) <==> k == KeyOfEntry(e) || Has(acl, k))
            && (Valid(a) <==> (Named(e.tag) ==> Has(acl, MASK_KEY)))
  {
    var key := KeyOfEntry(e);
    var a := SetKey(acl, key, e.perms);
    SetKeyUnique(acl, key, e.perms);
    forall k ensures Has(a, k) <==> k == key || Has(acl, k) {
      SetKeyLookup(acl, key, e.perms, k);
    }
    HasNamedIs(acl);
    HasNamedIs(a);
    assert HasNamed(a) <==> HasNamed(acl) || Named(e.tag) by {
      if Named(e.tag) { assert NamedIn(a, key); }
      if k :| NamedIn(acl, k) { assert NamedIn(a, k); }
    }
  }

  /** Recalculating the mask makes an ACL valid that lacks only that. */
  lemma CalcMaskValid(acl: List)
    requires Unique(acl)
    ensures forall k :: Has(CalcMask(acl), k) <==> k == MASK_KEY || Has(acl, k)
    ensures Valid(CalcMask(acl)) <==> Has(acl, Key(UserObj, 0)) && Has(acl, Key(GroupObj, 0)) && Has(acl, Key(Other, 0))
  {
    SetKeyUnique(acl, MASK_KEY, Union(acl));
    forall k ensures Has(CalcMask(acl), k) <==> k == MASK_KEY || Has(acl, k) {
      SetKeyLookup(acl, MASK_KEY, Union(acl), k);
    }
  }

  predicate MaskBefore(es: List, i: nat) {
    exists j :: 0 <= j < i && j < |es| && es[j].tag == Mask
  }

  /** With -n, a mask is named before the first user or group. */
  predicate MaskInTime(es: List) {
    forall i :: 0 <= i < |es| && Named(es[i].tag) ==> MaskBefore(es, i)
  }

  lemma MaskInTimeTail(es: List)
    requires es != []
    ensures MaskInTime(es) <==> !Named(es[0].tag) && (es[0].tag == Mask || MaskInTime(es[1..]))
  {
    var t := es[1..];
    if es[0].tag == Mask {
      forall i | 0 <= i < |es| && Named(es[i].tag) ensures MaskBefore(es, i) {
        assert es[0].tag == Mask && 0 < i;
      }
    } else {
      if MaskInTime(es) && !Named(es[0].tag) {
        forall i | 0 <= i < |t| && Named(t[i].tag) ensures MaskBefore(t, i) {
          assert Named(es[i + 1].tag) && MaskBefore(es, i + 1);
          var j :| 0 <= j < i + 1 && es[j].tag == Mask;
          assert t[j - 1].tag == Mask;
        }
      }
      if MaskInTime(t) && !Named(es[0].tag) {
        forall i | 0 <= i < |es| && Named(es[i].tag) ensures MaskBefore(es, i) {
          assert Named(t[i - 1].tag) && MaskBefore(t, i - 1);
          var j :| 0 <= j < i - 1 && t[j].tag == Mask;
          assert es[j + 1].tag == Mask;
        }
      }
      if Named(es[0].tag) { assert !MaskBefore(es, 0); }
    }
  }

  /** From a valid ACL, -m succeeds always if it recalculates the mask, and with -n exactly
      if there is a mask or one is named before any user or group. */
  lemma {:induction false} ModifySucceeds(acl: List, es: List, mode: Mode)
    requires !mode.remove && Valid(acl)
    ensures Run(acl, es, mode).Some? <==> mode.recalcMask || Has(acl, MASK_KEY) || MaskInTime(es)
    decreases |es|
  {
    if es != [] {
      var a := SetKey(acl, KeyOfEntry(es[0]), es[0].perms);
      SetKeyValid(acl, es[0]);
      CalcMaskValid(a);
      MaskInTimeTail(es);
      if Valid(Step(acl, es[0], mode)) { ModifySucceeds(Step(acl, es[0], mode), es[1..], mode); }
    }
  }

  lemma DeleteKeyValid(acl: List, e: AccessControlEntry)
    requires Valid(acl)
    ensures var a := DeleteKey(acl, KeyOfEntry(e));
            && Unique(a)
            && (forall k :: Has(a, k) <==> k != KeyOfEntry(e) && Has(acl, k))
            && (Valid(a) <==> !Required(e.tag) && (e.tag == Mask ==> !HasNamed(acl)))
  {
    var key := KeyOfEntry(e);
    var a := DeleteKey(acl, key);
    DeleteKeyUnique(acl, key);
    forall k ensures Has(a, k) <==> k != key && Has(acl, k) {
      DeleteKeyLookup(acl, key, k);
    }
    HasNamedIs(acl);
    HasNamedIs(a);
    assert Valid(a) <==> !Required(e.tag) && (HasNamed(a) ==> Has(a, MASK_KEY));
    if e.tag == Mask && HasNamed(acl) {
      var k :| NamedIn(acl, k);
      assert NamedIn(a, k);
    }
  }

  predicate NamedBefore(es: List, i: nat, k: Key) {
    exists j :: 0 <= j < i && j < |es| && KeyOfEntry(es[j]) == k
  }

  /** With -n, the mask is named only after every named user and group of the ACL. */
  ghost predicate MaskLast(acl: List, es: List) {
    forall i, k :: 0 <= i < |es| && es[i].tag == Mask && NamedIn(acl, k) ==> NamedBefore(es, i, k)
  }

  lemma MaskLastTail(acl: List, es: List)
    requires es != [] && Unique(acl)
    ensures MaskLast(acl, es) <==>
              && (es[0].tag == Mask ==> !HasNamed(acl))
              && MaskLast(DeleteKey(acl, KeyOfEntry(es[0])), es[1..])
  {
    var t, key := es[1..], KeyOfEntry(es[0]);
    var a := DeleteKey(acl, key);
    HasNamedIs(acl);
    if MaskLast(acl, es) {
      assert forall k :: es[0].tag == Mask && NamedIn(acl, k) ==> NamedBefore(es, 0, k);
      forall i, k | 0 <= i < |t| && t[i].tag == Mask && NamedIn(a, k) ensures NamedBefore(t, i, k) {
        DeleteKeyLookup(acl, key, k);
        assert es[i + 1].tag == Mask && NamedBefore(es, i + 1, k);
        var j :| 0 <= j < i + 1 && KeyOfEntry(es[j]) == k;
        assert KeyOfEntry(t[j - 1]) == k;
      }
    }
    if (es[0].tag == Mask ==> !HasNamed(acl)) && MaskLast(a, t) {
      forall i, k | 0 <= i < |es| && es[i].tag == Mask && NamedIn(acl, k) ensures NamedBefore(es, i, k) {
        assert i > 0;
        if k == key {
          assert KeyOfEntry(es[0]) == k;
        } else {
          DeleteKeyLookup(acl, key, k);
          assert t[i - 1].tag == Mask && NamedBefore(t, i - 1, k);
          var j :| 0 <= j < i - 1 && KeyOfEntry(t[j]) == k;
          assert KeyOfEntry(es[j + 1]) == k;
        }
      }
    }
  }

  /** From a valid ACL, -x succeeds exactly if it names none of the three required entries
      and, with -n, no mask that is still needed. */
  lemma {:induction false} RemoveSucceeds(acl: List, es: List, mode: Mode)
    requires mode.remove && Valid(acl)
    ensures Run(acl, es, mode).Some? <==>
              (forall e :: e in es ==> !Required(e.tag)) && (mode.recalcMask || MaskLast(acl, es))
    decreases |es|
  {
    if es != [] {
      var a := DeleteKey(acl, KeyOfEntry(es[0]));
      DeleteKeyValid(acl, es[0]);
      CalcMaskValid(a);
      MaskLastTail(acl, es);
      if Valid(Step(acl, es[0], mode)) { RemoveSucceeds(Step(acl, es[0], mode), es[1..], mode); }
      assert forall e :: e in es <==> e == es[0] || e in es[1..];
    }
  }

  // ---------------------------------------------------------------- from any ACL

  /** The three required entries are there. */
  predicate Complete(acl: List) {
    Has(acl, Key(UserObj, 0)) && Has(acl, Key(GroupObj, 0)) && Has(acl, Key(Other, 0))
  }

  /** The first change must complete the ACL and, with -n, leave it with any mask it needs. */
  lemma FirstSet(acl: List, e: AccessControlEntry, mode: Mode)
    requires !mode.remove && Unique(acl)
    ensures var a := SetKey(acl, KeyOfEntry(e), e.perms);
            && Unique(Step(acl, e, mode))
            && (Valid(Step(acl, e, mode)) <==>
                  Complete(a) && (mode.recalcMask || Has(a, MASK_KEY) || !(HasNamed(acl) || Named(e.tag))))
            && (Has(a, MASK_KEY) <==> e.tag == Mask || Has(acl, MASK_KEY))
            && (Valid(Step(acl, e, mode)) ==>
                  (Has(Step(acl, e, mode), MASK_KEY) <==> mode.recalcMask || Has(a, MASK_KEY)))
  {
    var key := KeyOfEntry(e);
    var a := SetKey(acl, key, e.perms);
    SetKeyUnique(acl, key, e.perms);
    forall k ensures Has(a, k) <==> k == key || Has(acl, k) {
      SetKeyLookup(acl, key, e.perms, k);
    }
    CalcMaskValid(a);
    NamedAfterSet(acl, e);
    if mode.recalcMask { SetKeyUnique(a, MASK_KEY, Union(a)); }
  }

  lemma NamedAfterSet(acl: List, e: AccessControlEntry)
    ensures HasNamed(SetKey(acl, KeyOfEntry(e), e.perms)) <==> HasNamed(acl) || Named(e.tag)
  {
    var key := KeyOfEntry(e);
    var a := SetKey(acl, key, e.perms);
    forall k ensures NamedIn(a, k) <==> (Named(k.tag) && k == key) || NamedIn(acl, k) {
      SetKeyLookup(acl, key, e.perms, k);
    }
    HasNamedIs(acl);
    HasNamedIs(a);
    assert Named(e.tag) ==> NamedIn(a, key);
  }

  /** With -n, a needed mask is there at every check. */
  predicate MaskKept(acl: List, es: List) {
    Has(acl, MASK_KEY) || (es != [] && es[0].tag == Mask) || (!HasNamed(acl) && MaskInTime(es))
  }

  /** From any ACL with unique keys, the empty default ACL included, -m succeeds if and only
      if its first entry completes the required ones and any mask that is needed is
      recalculated, present, or named in time. */
  lemma ModifySucceedsExactly(acl: List, es: List, mode: Mode)
    requires !mode.remove && Unique(acl)
    ensures Run(acl, es, mode).Some? <==>
              es == [] || (Complete(SetKey(acl, KeyOfEntry(es[0]), es[0].perms)) && (mode.recalcMask || MaskKept(acl, es)))
  {
    if es != [] {
      var a := Step(acl, es[0], mode);
      FirstSet(acl, es[0], mode);
      MaskInTimeTail(es);
      if Valid(a) { ModifySucceeds(a, es[1..], mode); }
    }
  }

  /** A new default ACL cannot be made one entry at a time. */
  lemma EmptyAclFails(es: List, mode: Mode)
    requires es != []
    ensures Run([], es, mode) == None
  {
    if mode.remove {
      RemoveSucceedsExactly([], es, mode);
    } else {
      ModifySucceedsExactly([], es, mode);
      assert |SetKey([], KeyOfEntry(es[0]), es[0].perms)| == 1;
    }
  }

  ghost predicate NoneNamedBut(acl: List, key: Key) {
    forall k :: NamedIn(acl, k) ==> k == key
  }

  lemma FirstDelete(acl: List, e: AccessControlEntry, mode: Mode)
    requires mode.remove && Unique(acl)
    ensures Unique(Step(acl, e, mode))
    ensures Valid(Step(acl, e, mode)) <==>
              Complete(acl) && !Required(e.tag)
              && (mode.recalcMask || (Has(acl, MASK_KEY) && e.tag != Mask) || NoneNamedBut(acl, KeyOfEntry(e)))
  {
    var a := DeleteKey(acl, KeyOfEntry(e));
    AfterDelete(acl, KeyOfEntry(e));
    CalcMaskValid(a);
    if mode.recalcMask { SetKeyUnique(a, MASK_KEY, Union(a)); }
  }

  lemma AfterDelete(acl: List, key: Key)
    requires Unique(acl)
    ensures Unique(DeleteKey(acl, key))
    ensures forall k :: Has(DeleteKey(acl, key), k) <==> k != key && Has(acl, k)
    ensures HasNamed(DeleteKey(acl, key)) <==> !NoneNamedBut(acl, key)
  {
    var a := DeleteKey(acl, key);
    DeleteKeyUnique(acl, key);
    forall k ensures Has(a, k) <==> k != key && Has(acl, k) {
      DeleteKeyLookup(acl, key, k);
    }
    assert forall k :: NamedIn(a, k) <==> NamedIn(acl, k) && k != key;
    HasNamedIs(a);
  }

  /** With no named entry left, nothing needs the mask any more. */
  lemma MaskLastWithoutNamed(acl: List, es: List)
    requires es != [] && Unique(acl) && NoneNamedBut(acl, KeyOfEntry(es[0]))
    ensures MaskLast(DeleteKey(acl, KeyOfEntry(es[0])), es[1..])
  {
    var key := KeyOfEntry(es[0]);
    forall k ensures !NamedIn(DeleteKey(acl, key), k) {
      DeleteKeyLookup(acl, key, k);
      assert NamedIn(DeleteKey(acl, key), k) ==> NamedIn(acl, k) && k != key;
    }
  }

  /** From any ACL with unique keys, -x succeeds if and only if it has the required entries,
      none of them is named and, with -n, a mask that is needed is there and stays. */
  lemma RemoveSucceedsExactly(acl: List, es: List, mode: Mode)
    requires mode.remove && Unique(acl)
    ensures Run(acl, es, mode).Some? <==>
              es == [] ||
              (Complete(acl) && (forall e :: e in es ==> !Required(e.tag))
               && (mode.recalcMask || NoneNamedBut(acl, KeyOfEntry(es[0]))
                   || (Has(acl, MASK_KEY) && MaskLast(acl, es))))
  {
    if es != [] {
      var a := Step(acl, es[0], mode);
      FirstDelete(acl, es[0], mode);
      MaskLastTail(acl, es);
      HasNamedIs(acl);
      if NoneNamedBut(acl, KeyOfEntry(es[0])) { MaskLastWithoutNamed(acl, es); }
      if Valid(a) { RemoveSucceeds(a, es[1..], mode); }
      assert forall e :: e in es <==> e == es[0] || e in es[1..];
    }
  }
}
