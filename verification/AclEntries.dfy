/** An access control list as `acl/acl_update.c` edits it: a sequence of entries, each known
    by its tag type and, for a named user or group, its qualifier. */
module AclEntries {
  // The libacl calls are modelled by what acl_calc_mask(3) and acl_valid(3) say of them.

  import opened Options
  import opened AclText
  import opened AclParser

  datatype Key = Key(tag: Tag, qual: nat)

  const MASK_KEY := Key(Mask, 0)

  function KeyOfEntry(e: AccessControlEntry): Key {
    Key(e.tag, if Named(e.tag) then e.qual else 0)
  }

  function Make(k: Key, perms: Perms): AccessControlEntry { AccessControlEntry(k.tag, k.qual, perms) }

  type List = seq<AccessControlEntry>

  /** The position of the first entry with the key, or the length. */
  function Find(acl: List, k: Key): (i: nat)
    ensures i <= |acl| && (i < |acl| ==> KeyOfEntry(acl[i]) == k)
    ensures forall j :: 0 <= j < i ==> KeyOfEntry(acl[j]) != k
  {
    if acl == [] || KeyOfEntry(acl[0]) == k then 0 else 1 + Find(acl[1..], k)
  }

  predicate Has(acl: List, k: Key) { Find(acl, k) < |acl| }

  function Lookup(acl: List, k: Key): Option<Perms> {
    if Has(acl, k) then Some(acl[Find(acl, k)].perms) else None
  }

  predicate Unique(acl: List) {
    forall i, j :: 0 <= i < j < |acl| ==> KeyOfEntry(acl[i]) != KeyOfEntry(acl[j])
  }

  lemma FindIs(acl: List, k: Key, i: nat)
    requires i < |acl| && KeyOfEntry(acl[i]) == k && forall j :: 0 <= j < i ==> KeyOfEntry(acl[j]) != k
    ensures Find(acl, k) == i
  {
  }

  lemma HasIs(acl: List, k: Key)
    ensures Has(acl, k) <==> exists i :: 0 <= i < |acl| && KeyOfEntry(acl[i]) == k
  {
  }

  lemma UniqueFind(acl: List, i: nat)
    requires Unique(acl) && i < |acl|
    ensures Find(acl, KeyOfEntry(acl[i])) == i && Lookup(acl, KeyOfEntry(acl[i])) == Some(acl[i].perms)
  {
  }

  // ---------------------------------------------------------------- the operations

  function SetKey(acl: List, k: Key, perms: Perms): List {
    var i := Find(acl, k);
    if i < |acl| then acl[i := acl[i].(perms := perms)] else acl + [Make(k, perms)]
  }

  function DeleteKey(acl: List, k: Key): List {
    var i := Find(acl, k);
    if i < |acl| then acl[..i] + acl[i + 1..] else acl
  }

  function Or(p: Perms, q: Perms): Perms { Perms(p.r || q.r, p.w || q.w, p.x || q.x) }

  predicate GroupClass(tag: Tag) { tag == User || tag == GroupObj || tag == Group }

  /** The union of the permissions of the group class. */
  function Union(acl: List): Perms {
    if acl == [] then NO_PERMS
    else
      var n := |acl| - 1;
      if GroupClass(acl[n].tag) then Or(Union(acl[..n]), acl[n].perms) else Union(acl[..n])
  }

  /** acl_calc_mask(): sets the mask entry, which it creates if there is none. */
  function CalcMask(acl: List): List { SetKey(acl, MASK_KEY, Union(acl)) }

  /** acl_valid(): the three required entries once each, no key twice, and a mask if a user
      or group is named. */
  predicate Valid(acl: List) {
    && Unique(acl)
    && Has(acl, Key(UserObj, 0)) && Has(acl, Key(GroupObj, 0)) && Has(acl, Key(Other, 0))
    && ((exists i :: 0 <= i < |acl| && Named(acl[i].tag)) ==> Has(acl, MASK_KEY))
  }

  // ---------------------------------------------------------------- what they do to a lookup

  predicate WellKeyed(k: Key) { !Named(k.tag) ==> k.qual == 0 }

  lemma SetKeyLookup(acl: List, k: Key, perms: Perms, q: Key)
    requires WellKeyed(k)
    ensures Lookup(SetKey(acl, k, perms), q) == if q == k then Some(perms) else Lookup(acl, q)
    ensures Has(SetKey(acl, k, perms), q) <==> q == k || Has(acl, q)
  {
    var i, a := Find(acl, k), SetKey(acl, k, perms);
    assert forall j :: 0 <= j < |acl| ==> KeyOfEntry(a[j]) == KeyOfEntry(acl[j]);
    if Has(acl, q) {
      FindIs(a, q, Find(acl, q));
    } else if q == k {
      FindIs(a, k, i);
    }
  }

  lemma SetKeyUnique(acl: List, k: Key, perms: Perms)
    requires Unique(acl) && WellKeyed(k)
    ensures Unique(SetKey(acl, k, perms))
  {
    var a := SetKey(acl, k, perms);
    assert forall j :: 0 <= j < |acl| ==> KeyOfEntry(a[j]) == KeyOfEntry(acl[j]);
  }

  /** The entries after position `i` move down by one. */
  lemma DeleteAt(acl: List, i: nat, j: nat)
    requires i < |acl| && j < |acl| - 1
    ensures (acl[..i] + acl[i + 1..])[j] == if j < i then acl[j] else acl[j + 1]
  {
  }

  lemma DeleteKeyUnique(acl: List, k: Key)
    requires Unique(acl)
    ensures Unique(DeleteKey(acl, k))
  {
    var i, a := Find(acl, k), DeleteKey(acl, k);
    if i < |acl| {
      forall m, n | 0 <= m < n < |a| ensures KeyOfEntry(a[m]) != KeyOfEntry(a[n]) {
        DeleteAt(acl, i, m);
        DeleteAt(acl, i, n);
      }
    }
  }

  lemma DeleteKeyLookup(acl: List, k: Key, q: Key)
    requires Unique(acl)
    ensures Lookup(DeleteKey(acl, k), q) == if q == k then None else Lookup(acl, q)
    ensures Has(DeleteKey(acl, k), q) <==> q != k && Has(acl, q)
  {
    var i, a := Find(acl, k), DeleteKey(acl, k);
    if i < |acl| {
      DeleteKeyUnique(acl, k);
      if Has(acl, q) && q != k {
        var j := Find(acl, q);
        var j' := if j < i then j else j - 1;
        DeleteAt(acl, i, j');
        assert KeyOfEntry(a[j']) == q;
      }
      if Has(a, q) {
        var j := Find(a, q);
        DeleteAt(acl, i, j);
        UniqueFind(acl, if j < i then j else j + 1);
      }
    }
  }

  /** The union by permission: granted if some entry of the group class grants it. */
  predicate GrantedBy(acl: List, has: Perms -> bool, i: nat) {
    i < |acl| && GroupClass(acl[i].tag) && has(acl[i].perms)
  }

  lemma {:induction false} UnionIs(acl: List, has: Perms -> bool)
    requires forall p, q :: has(Or(p, q)) <==> has(p) || has(q)
    requires !has(NO_PERMS)
    ensures has(Union(acl)) <==> exists i :: GrantedBy(acl, has, i)
  {
    if acl != [] {
      var n := |acl| - 1;
      UnionIs(acl[..n], has);
      if i: nat :| GrantedBy(acl[..n], has, i) {
        assert GrantedBy(acl, has, i);
      }
      if i: nat :| GrantedBy(acl, has, i) {
        assert i < n ==> GrantedBy(acl[..n], has, i);
        assert i == n ==> GroupClass(acl[n].tag) && has(acl[n].perms);
      }
      if GroupClass(acl[n].tag) && has(acl[n].perms) {
        assert GrantedBy(acl, has, n);
      }
    }
  }
}
