/** The parser of `acl/acl_update.c`, which cuts its argument in place. */
module AclParser {
  import opened Options
  import opened CStrings
  import opened AclText

  datatype AccessControlEntry = AccessControlEntry(tag: Tag, qual: nat, perms: Perms)

  /** What parseEntrySpec() leaves in an entry that held `was`: without -m the permissions
      stay as they were. */
  function Stored(e: Spec, was: AccessControlEntry): AccessControlEntry {
    AccessControlEntry(e.tag, e.qual, if e.perms.Some? then e.perms.value else was.perms)
  }

  /** `b` is `a` but for the string at `p`. */
  predicate SameOutside(a: seq<char>, b: seq<char>, p: nat, n: nat) {
    |a| == |b| && forall i :: 0 <= i < |a| && !(p <= i < p + n) ==> b[i] == a[i]
  }

  /** The permissions string at `p`, added to `perms` character by character. */
  method ReadPerms(str: array<char>, start: nat) returns (ok: bool, perms: Perms)
    requires Terminated(str[..], start)
    ensures PermsOf(CString(str[..], start), NO_PERMS) == if ok then Some(perms) else None
  {
    perms := NO_PERMS;
    var p := start;
    while str[p] != '\0'
      invariant Terminated(str[..], p)
      invariant PermsOf(CString(str[..], start), NO_PERMS) == PermsOf(CString(str[..], p), perms)
      decreases str.Length - p
    {
      if str[p] == 'r' {
        perms := perms.(r := true);
      } else if str[p] == 'w' {
        perms := perms.(w := true);
      } else if str[p] == 'x' {
        perms := perms.(x := true);
      } else if str[p] != '-' {
        return false, perms;
      }
      p := p + 1;
    }
    return true, perms;
  }

  /** The tag string and the qualifier, each ended by a NUL. */
  method ReadKey(str: array<char>, entryStr: nat, qualifier: nat, names: Names)
    returns (ok: bool, tag: Tag, qual: nat)
    requires Terminated(str[..], entryStr) && Terminated(str[..], qualifier)
    ensures KeyOf(CString(str[..], entryStr), CString(str[..], qualifier), names)
            == if ok then Some((tag, qual)) else None
  {
    tag, qual := Other, 0;
    var hasQual := str[qualifier] != '\0';
    match TagOf(CString(str[..], entryStr), hasQual) {
      case None => return false, tag, qual;
      case Some(t) => tag := t;
    }
    if tag == User {
      qual := IdOf(CString(str[..], qualifier), names.users);
      if qual == NO_ID {
        return false, tag, qual;
      }
    } else if tag == Group {
      qual := IdOf(CString(str[..], qualifier), names.groups);
      if qual == NO_ID {
        return false, tag, qual;
      }
    }
    return true, tag, qual;
  }

  method ParseEntrySpec(str: array<char>, entryStr: nat, aclist: array<AccessControlEntry>, n: nat,
                        permsReqd: bool, names: Names) returns (ok: bool)
    requires Terminated(str[..], entryStr) && n < aclist.Length
    modifies str, aclist
    ensures var e := EntrySpec(CString(old(str[..]), entryStr), permsReqd, names);
            && ok == e.Some?
            && (ok ==> aclist[n] == Stored(e.value, old(aclist[n])))
    ensures forall i :: 0 <= i < aclist.Length && i != n ==> aclist[i] == old(aclist[i])
    ensures SameOutside(old(str[..]), str[..], entryStr, |CString(old(str[..]), entryStr)|)
  {
    var fields := CutFields(str, entryStr);
    if fields.None? {
      return false;
    }
    var (qualifier, permissions) := fields.value;
    var hasPerms := permissions != -1 && str[permissions] != '\0';
    if hasPerms && !permsReqd {
      return false;
    }
    if !hasPerms && permsReqd {
      return false;
    }
    var tag, qual;
    ok, tag, qual := ReadKey(str, entryStr, qualifier, names);
    if !ok {
      return false;
    }
    var perms := aclist[n].perms;
    if hasPerms {
      ok, perms := ReadPerms(str, permissions);
      if !ok {
        return false;
      }
    }
    aclist[n] := AccessControlEntry(tag, qual, perms);
    return true;
  }

  /** The strings of an entry once its colons are NULs. */
  predicate Fields(s: string, str: seq<char>, entryStr: nat, qualifier: nat, permissions: int) {
    var i := First(s, ':');
    && i < |s|
    && var rest := s[i + 1..];
       var j := First(rest, ':');
       && Terminated(str, entryStr) && CString(str, entryStr) == s[..i]
       && Terminated(str, qualifier) && CString(str, qualifier) == rest[..j]
       && (if permissions == -1 then j == |rest|
           else permissions >= 0 && j < |rest| && Terminated(str, permissions)
                && CString(str, permissions) == rest[j + 1..])
  }

  /** Replaces the first two colons by NULs; tells where the qualifier and the permissions
      start, the latter -1 if there is only one colon. */
  method CutFields(str: array<char>, entryStr: nat) returns (fields: Option<(nat, int)>)
    requires Terminated(str[..], entryStr)
    modifies str
    ensures SameOutside(old(str[..]), str[..], entryStr, |CString(old(str[..]), entryStr)|)
    ensures match fields
            case None => First(CString(old(str[..]), entryStr), ':') == |CString(old(str[..]), entryStr)|
            case Some((qualifier, permissions)) =>
              Fields(CString(old(str[..]), entryStr), str[..], entryStr, qualifier, permissions)
  {
    var colon1 := CutAt(str, entryStr, ':');
    if colon1 == -1 {
      return None;
    }
    ghost var a := str[..];
    var colon2 := CutAt(str, colon1 + 1, ':');
    SameString(a, str[..], entryStr);
    if colon2 == -1 {
      return Some((colon1 + 1, -1));
    }
    return Some((colon1 + 1, colon2 + 1));
  }

  /** An array that held `was`, after the entries have been stored in it. */
  function Filled(es: seq<Spec>, was: seq<AccessControlEntry>): (now: seq<AccessControlEntry>)
    requires |es| <= |was|
    ensures |now| == |was|
  {
    if es == [] then was
    else
      var n := |es| - 1;
      Filled(es[..n], was)[n := Stored(es[n], was[n])]
  }

  lemma {:induction false} FilledAt(es: seq<Spec>, was: seq<AccessControlEntry>, i: nat)
    requires |es| <= |was| && i < |was|
    ensures Filled(es, was)[i] == if i < |es| then Stored(es[i], was[i]) else was[i]
  {
    if es != [] { FilledAt(es[..|es|-1], was, i); }
  }

  lemma FilledOne(es: seq<Spec>, e: Spec, was: seq<AccessControlEntry>)
    requires |es| < |was|
    ensures Filled(es + [e], was) == Filled(es, was)[|es| := Stored(e, Filled(es, was)[|es|])]
  {
    FilledAt(es, was, |es|);
    assert (es + [e])[..|es|] == es;
  }

  /** The entry at hand, and the text after it. */
  function Piece(rest: string): string {
    if First(rest, ',') == |rest| then rest else rest[..First(rest, ',')]
  }

  function More(rest: string): seq<string> {
    if First(rest, ',') == |rest| then [] else Pieces(rest[First(rest, ',') + 1..])
  }

  /** The list, when `es` has been read and `rest` is left: what the loop goes on to do, given
      how one entry is read. */
  function AclFrom(read: string -> Option<Spec>, es: seq<Spec>, rest: string): Option<seq<Spec>>
    decreases |rest|
  {
    if |es| >= MAX_ENTRIES then None
    else
      match read(Piece(rest))
      case None => None
      case Some(e) =>
        if First(rest, ',') == |rest| then Some(es + [e])
        else AclFrom(read, es + [e], rest[First(rest, ',') + 1..])
  }

  function Reader(permsReqd: bool, names: Names): string -> Option<Spec> {
    (s: string) => EntrySpec(s, permsReqd, names)
  }

  /** `es` in front of what was read after it. */
  function Prepend(es: seq<Spec>, more: Option<seq<Spec>>): Option<seq<Spec>> {
    if more.Some? then Some(es + more.value) else None
  }

  lemma PrependOne(es: seq<Spec>, e: Spec, more: Option<seq<Spec>>)
    ensures Prepend(es + [e], more) == Prepend(es, Prepend([e], more))
  {
    if more.Some? { assert (es + [e]) + more.value == es + ([e] + more.value); }
  }

  lemma {:induction false} LoopReadsList(es: seq<Spec>, rest: string, permsReqd: bool, names: Names)
    requires |es| <= MAX_ENTRIES
    ensures AclFrom(Reader(permsReqd, names), es, rest)
            == if |es| + |Pieces(rest)| <= MAX_ENTRIES then Prepend(es, Specs(Pieces(rest), permsReqd, names)) else None
    decreases |rest|
  {
    match EntrySpec(Piece(rest), permsReqd, names)
    case None =>
    case Some(e) =>
      var more := Specs(More(rest), permsReqd, names);
      assert Specs(Pieces(rest), permsReqd, names) == Prepend([e], more);
      if First(rest, ',') == |rest| {
        assert [e] + more.value == [e];
      } else if |es| < MAX_ENTRIES {
        LoopReadsList(es + [e], rest[First(rest, ',') + 1..], permsReqd, names);
        PrependOne(es, e, more);
      }
  }

  lemma LoopReadsAcl(text: string, permsReqd: bool, names: Names)
    ensures AclFrom(Reader(permsReqd, names), [], text) == Acl(text, permsReqd, names)
  {
    LoopReadsList([], text, permsReqd, names);
    var all := Specs(Pieces(text), permsReqd, names);
    if all.Some? { assert [] + all.value == all.value; }
  }

  ghost predicate Reads(read: string -> Option<Spec>, permsReqd: bool, names: Names) {
    forall s {:trigger EntrySpec(s, permsReqd, names)} :: EntrySpec(s, permsReqd, names) == read(s)
  }

  /** Ends the entry at `nextEntry` at its comma, if it has one, and reads it into `aclist[n]`. */
  method ParseNext(aclStr: array<char>, nextEntry: nat, aclist: array<AccessControlEntry>, n: nat,
                   permsReqd: bool, names: Names, ghost read: string -> Option<Spec>, ghost rest: string)
    returns (ok: bool, comma: int)
    requires Reads(read, permsReqd, names)
    requires StringAt(aclStr[..], nextEntry, rest) && n < aclist.Length
    modifies aclStr, aclist
    ensures var e := read(Piece(rest));
            ok == e.Some? && (ok ==> aclist[..] == old(aclist[..])[n := Stored(e.value, old(aclist[n]))])
    ensures comma == -1 <==> First(rest, ',') == |rest|
    ensures comma != -1 ==> nextEntry <= comma < aclStr.Length - 1
    ensures comma != -1 ==> StringAt(aclStr[..], comma + 1, rest[First(rest, ',') + 1..])
  {
    StringAtIs(aclStr[..], nextEntry, rest);
    comma := CutAt(aclStr, nextEntry, ',');
    ghost var before := aclStr[..];
    ok := ParseEntrySpec(aclStr, nextEntry, aclist, n, permsReqd, names);
    if comma != -1 {
      SameString(before, aclStr[..], comma + 1);
      StringAtIs(aclStr[..], comma + 1, rest[First(rest, ',') + 1..]);
    }
  }

  /** The loop of parseACL(). */
  method ParseEntries(aclStr: array<char>, aclist: array<AccessControlEntry>, permsReqd: bool, names: Names,
                      ghost read: string -> Option<Spec>) returns (r: int)
    requires Terminated(aclStr[..], 0) && aclist.Length == MAX_ENTRIES && Reads(read, permsReqd, names)
    modifies aclStr, aclist
    ensures match AclFrom(read, [], CString(old(aclStr[..]), 0))
            case None => r == -1
            case Some(es) => r == |es| <= MAX_ENTRIES && aclist[..] == Filled(es, old(aclist[..]))
  {
    ghost var was, rest := aclist[..], CString(aclStr[..], 0);
    ghost var es: seq<Spec>, result := [], AclFrom(read, [], rest);
    StringAtIs(aclStr[..], 0, rest);
    var n := 0;
    var nextEntry := 0;
    while true
      invariant 0 <= n == |es| <= MAX_ENTRIES && 0 <= nextEntry < aclStr.Length
      invariant StringAt(aclStr[..], nextEntry, rest)
      invariant result == AclFrom(read, es, rest)
      invariant aclist[..] == Filled(es, was)
      decreases aclStr.Length - nextEntry
    {
      if n >= MAX_ENTRIES {
        return -1;
      }
      var ok, comma := ParseNext(aclStr, nextEntry, aclist, n, permsReqd, names, read, rest);
      if !ok {
        return -1;
      }
      ghost var e := read(Piece(rest)).value;
      FilledOne(es, e, was);
      if comma == -1 {
        return n + 1;
      }
      es, rest := es + [e], rest[First(rest, ',') + 1..];
      n := n + 1;
      nextEntry := comma + 1;
    }
  }

  /** parseACL(): the number of entries, or -1. */
  method ParseACL(aclStr: array<char>, aclist: array<AccessControlEntry>, permsReqd: bool, names: Names)
    returns (r: int)
    requires Terminated(aclStr[..], 0) && aclist.Length == MAX_ENTRIES
    modifies aclStr, aclist
    ensures match Acl(CString(old(aclStr[..]), 0), permsReqd, names)
            case None => r == -1
            case Some(es) => r == |es| <= MAX_ENTRIES && aclist[..] == Filled(es, old(aclist[..]))
  {
    LoopReadsAcl(CString(aclStr[..], 0), permsReqd, names);
    r := ParseEntries(aclStr, aclist, permsReqd, names, Reader(permsReqd, names));
  }
}
