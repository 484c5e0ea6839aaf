/** The ACL of a file as `acl/acl_update.c` edits it in place, and the file it writes after
    every change. */
module AclEditor {
  import opened Options
  import opened AclText
  import opened AclParser
  import opened AclEntries
  import opened AclUpdate

  class Acl {
    var entries: List
    var file: List

    constructor (stored: List)
      ensures entries == file == stored
    {
      entries, file := stored, stored;
    }

    /** findEntry(): the first entry with the tag type and, where it matters, the qualifier;
        -1 if there is none. */
    method FindEntry(tag: Tag, qual: nat) returns (entry: int)
      ensures entry == if Has(entries, KeyOfEntry(AccessControlEntry(tag, qual, NO_PERMS)))
                       then Find(entries, KeyOfEntry(AccessControlEntry(tag, qual, NO_PERMS))) else -1
    {
      ghost var k := KeyOfEntry(AccessControlEntry(tag, qual, NO_PERMS));
      var ent := 0;
      while ent < |entries|
        invariant 0 <= ent <= |entries|
        invariant forall j :: 0 <= j < ent ==> KeyOfEntry(entries[j]) != k
      {
        var e := entries[ent];
        if tag == e.tag {
          if tag == User || tag == Group {
            if qual == e.qual {
              FindIs(entries, k, ent);
              return ent;
            }
          } else {
            FindIs(entries, k, ent);
            return ent;
          }
        }
        ent := ent + 1;
      }
      return -1;
    }

    /** setPerms(): clears the permission set and adds what is asked for. */
    method SetPerms(entry: nat, perms: Perms)
      requires entry < |entries|
      modifies this`entries
      ensures entries == old(entries)[entry := old(entries)[entry].(perms := perms)]
    {
      var permset := NO_PERMS;
      if perms.r {
        permset := permset.(r := true);
      }
      if perms.w {
        permset := permset.(w := true);
      }
      if perms.x {
        permset := permset.(x := true);
      }
      entries := entries[entry := entries[entry].(perms := permset)];
    }

    /** One entry of the list, with -m: changes the entry of the ACL or makes a new one. */
    method Modify(ace: AccessControlEntry)
      modifies this`entries
      ensures entries == SetKey(old(entries), KeyOfEntry(ace), ace.perms)
    {
      var entry := FindEntry(ace.tag, ace.qual);
      if entry == -1 {
        entry := |entries|;
        var qual := if ace.tag == User || ace.tag == Group then ace.qual else 0;
        entries := entries + [AccessControlEntry(ace.tag, qual, NO_PERMS)];
      }
      SetPerms(entry, ace.perms);
    }

    /** With -x: deletes the entry if it is there. */
    method Remove(ace: AccessControlEntry)
      modifies this`entries
      ensures entries == DeleteKey(old(entries), KeyOfEntry(ace))
    {
      var entry := FindEntry(ace.tag, ace.qual);
      if entry != -1 {
        entries := entries[..entry] + entries[entry + 1..];
      }
    }

    /** One turn of the loop: the change, the mask, the check and the write. */
    method Apply(ace: AccessControlEntry, mode: Mode) returns (ok: bool)
      modifies this
      ensures entries == Step(old(entries), ace, mode) && ok == Valid(entries)
      ensures file == if ok then entries else old(file)
    {
      if mode.remove {
        Remove(ace);
      } else {
        Modify(ace);
      }
      if mode.recalcMask {
        entries := CalcMask(entries);
      }
      ok := Valid(entries);
      if ok {
        file := entries;
      }
    }

    /** The loop over the parsed entries; gives up at the first result that is not valid, and
        leaves in the file what the entries before it made of the ACL. */
    method Update(aclist: array<AccessControlEntry>, numEntries: nat, mode: Mode) returns (ok: bool)
      requires numEntries <= aclist.Length
      modifies this
      ensures Run(old(entries), aclist[..numEntries], mode) == if ok then Some(entries) else None
      ensures ok == (Applied(old(entries), aclist[..numEntries], mode) == numEntries)
      ensures file == Saved(old(entries), old(file), aclist[..numEntries], mode)
    {
      ghost var was, stored, es := entries, file, aclist[..numEntries];
      assert es[..0] == [] && es[0..] == es;
      var en := 0;
      while en < numEntries
        invariant 0 <= en <= numEntries
        invariant Turns(was, es, en, mode, entries)
        invariant file == if en == 0 then stored else entries
      {
        NextTurn(was, stored, es, en, mode, entries);
        ok := Apply(aclist[en], mode);
        if !ok {
          return;
        }
        en := en + 1;
      }
      LastTurn(was, stored, es, mode, entries);
      return true;
    }
  }

  /** The loop has made `now` of the first `en` entries. */
  predicate Turns(was: List, es: List, en: nat, mode: Mode, now: List) {
    && en <= |es| && Run(was, es[..en], mode) == Some(now)
    && Run(was, es, mode) == Run(now, es[en..], mode)
    && Applied(was, es, mode) == en + Applied(now, es[en..], mode)
  }

  lemma LastTurn(was: List, stored: List, es: List, mode: Mode, now: List)
    requires Turns(was, es, |es|, mode, now)
    ensures Run(was, es, mode) == Some(now) && Applied(was, es, mode) == |es|
    ensures Saved(was, stored, es, mode) == if es == [] then stored else now
  {
    assert es[..|es|] == es;
  }

  lemma NextTurn(was: List, stored: List, es: List, en: nat, mode: Mode, now: List)
    requires Turns(was, es, en, mode, now) && en < |es|
    ensures var a := Step(now, es[en], mode);
            if Valid(a) then Turns(was, es, en + 1, mode, a)
            else
              && Run(was, es, mode).None? && Applied(was, es, mode) < |es|
              && Saved(was, stored, es, mode) == if en == 0 then stored else now
  {
    assert es[en..][1..] == es[en + 1..] && es[en..][0] == es[en];
    RunSnoc(was, es, en, mode);
  }
}
