/** `proc/setenv.c`: the environment is an array of entries that ends at the first null. */
module Environ {
  import opened Options
  import opened Sequences
  import opened EnvSpec

  datatype Outcome = Success | Invalid | NoMemory

  /** The entries before the first null. */
  function Entries(a: seq<Option<string>>): seq<string> {
    if a == [] || a[0].None? then [] else [a[0].value] + Entries(a[1..])
  }

  /** The array ends at `n`. */
  predicate EndsAt(a: seq<Option<string>>, n: nat) {
    n < |a| && a[n].None? && forall i :: 0 <= i < n ==> a[i].Some?
  }

  lemma {:induction false} EntriesAt(a: seq<Option<string>>, n: nat)
    requires EndsAt(a, n)
    ensures |Entries(a)| == n && forall i :: 0 <= i < n ==> Entries(a)[i] == a[i].value
  {
    if n > 0 {
      assert EndsAt(a[1..], n - 1);
      EntriesAt(a[1..], n - 1);
      forall i | 0 <= i < n ensures Entries(a)[i] == a[i].value {
        if i > 0 { assert Entries(a)[i] == Entries(a[1..])[i - 1]; }
      }
    }
  }

  lemma {:induction false} EndExists(a: seq<Option<string>>)
    requires |Entries(a)| < |a|
    ensures EndsAt(a, |Entries(a)|)
  {
    if a[0].Some? {
      EndExists(a[1..]);
      assert forall i :: 0 < i <= |Entries(a)| ==> a[i] == a[1..][i - 1];
    }
  }

  /** `now` is `was` with the elements from `i` to the null moved down by one. */
  predicate Shifted(was: seq<Option<string>>, now: seq<Option<string>>, i: nat, sp: nat) {
    && |now| == |was| && i <= sp < |was|
    && (forall j :: 0 <= j < i ==> now[j] == was[j])
    && (forall j :: i <= j < sp ==> now[j] == was[j + 1])
    && (forall j :: sp <= j < |was| ==> now[j] == was[j])
  }

  lemma ShiftDeletes(was: seq<Option<string>>, now: seq<Option<string>>, i: nat, n: nat)
    requires EndsAt(was, n) && i < n && Shifted(was, now, i, n) && |Entries(was)| == n
    ensures EndsAt(now, n - 1) && Entries(now) == Entries(was)[..i] + Entries(was)[i + 1..]
  {
    EntriesAt(was, n);
    EntriesAt(now, n - 1);
  }

  class Environment {
    var environ: array<Option<string>>

    ghost predicate Valid()
      reads this, environ
    {
      |Entries(environ[..])| < environ.Length
    }

    constructor (entries: seq<string>)
      ensures Valid() && fresh(environ) && Entries(environ[..]) == entries
    {
      var n := |entries|;
      environ := new Option<string>[n + 1](i => if 0 <= i < n then Some(entries[i]) else None);
      new;
      assert EndsAt(environ[..], n);
      EntriesAt(environ[..], n);
    }

    /** Shifts the elements after `ep` back by one, up to and with the null. */
    method Shift(ep: nat)
      requires Valid() && ep < |Entries(environ[..])|
      modifies environ
      ensures Valid()
      ensures Entries(environ[..]) == Entries(old(environ[..]))[..ep] + Entries(old(environ[..]))[ep + 1..]
    {
      ghost var was, n := environ[..], |Entries(environ[..])|;
      EndExists(was);
      var sp := ep;
      while environ[sp].Some?
        invariant ep <= sp <= n && Shifted(was, environ[..], ep, sp)
        decreases n - sp
      {
        environ[sp] := environ[sp + 1];
        sp := sp + 1;
      }
      ShiftDeletes(was, environ[..], ep, n);
    }

    /** unsetenv(): removes all entries for the name, in place. */
    method Unsetenv(name: Option<string>) returns (r: Outcome)
      requires Valid()
      modifies environ
      ensures Valid()
      ensures if name.None? || name.value == "" || '=' in name.value then r == Invalid && environ[..] == old(environ[..])
              else r == Success && Entries(environ[..]) == Without(Entries(old(environ[..])), name.value)
    {
      if name.None? || name.value == "" || '=' in name.value {
        return Invalid;
      }
      ghost var env := Entries(environ[..]);
      ghost var now := env;
      KeptStarts(env, name.value);
      var ep := 0;
      while environ[ep].Some?
        invariant Valid() && now == Entries(environ[..]) && Kept(env, now, ep, name.value)
        decreases |now| - ep
      {
        AtEntry(environ[..], ep);
        KeptStep(env, now, ep, name.value);
        if Binds(environ[ep].value, name.value) {
          Shift(ep);
          now := now[..ep] + now[ep + 1..];
        } else {
          ep := ep + 1;
        }
      }
      AtEntry(environ[..], ep);
      KeptEnds(env, now, name.value);
      return Success;
    }

    /** putenv() as the C library does it: in place of the first entry for the name, or in a
        larger array. */
    method Putenv(name: string, entry: string, room: bool) returns (ok: bool)
      requires Valid()
      modifies this, environ
      ensures Valid()
      ensures ok ==> Entries(environ[..]) == Put(Entries(old(environ[..])), name, entry)
      ensures !ok ==> environ == old(environ) && environ[..] == old(environ[..])
      ensures ok == room
    {
      if !room {
        return false;
      }
      var entries := Put(Entries(environ[..]), name, entry);
      var n := |entries|;
      environ := new Option<string>[n + 1](i => if 0 <= i < n then Some(entries[i]) else None);
      assert EndsAt(environ[..], n);
      EntriesAt(environ[..], n);
      return true;
    }

    /** setenv(); `mallocs` and `room` tell whether malloc() and putenv() find memory. When
        they do not, the old entries are gone all the same. */
    method Setenv(name: Option<string>, value: Option<string>, overwrite: int, mallocs: bool, room: bool)
      returns (r: Outcome)
      requires Valid()
      modifies this, environ
      ensures Valid()
      ensures var env, now := Entries(old(environ[..])), Entries(environ[..]);
              if name.None? || name.value == "" || '=' in name.value || value.None? then r == Invalid && now == env
              else if Getenv(env, name.value).Some? && overwrite == 0 then r == Success && now == env
              else if mallocs && room then r == Success && now == Set(env, name.value, value.value)
              else r == NoMemory && now == Without(env, name.value)
    {
      if name.None? || name.value == "" || '=' in name.value || value.None? {
        return Invalid;
      }
      if Getenv(Entries(environ[..]), name.value).Some? && overwrite == 0 {
        return Success;
      }
      var _ := Unsetenv(name);
      if !mallocs {
        return NoMemory;
      }
      var es := name.value + "=" + value.value;
      var ok := Putenv(name.value, es, room);
      return if ok then Success else NoMemory;
    }
  }

  lemma AtEntry(a: seq<Option<string>>, ep: nat)
    requires |Entries(a)| < |a| && ep <= |Entries(a)|
    ensures a[ep].Some? <==> ep < |Entries(a)|
    ensures ep < |Entries(a)| ==> Entries(a)[ep] == a[ep].value
  {
    EndExists(a);
    EntriesAt(a, |Entries(a)|);
  }

  /** The loop of unsetenv() has dealt with the entries before `ep`: they stay. */
  predicate Kept(env: seq<string>, now: seq<string>, ep: nat, name: string) {
    ep <= |now| && Without(env, name) == now[..ep] + Without(now[ep..], name)
  }

  lemma KeptStarts(env: seq<string>, name: string)
    ensures Kept(env, env, 0, name)
  {
    assert env[0..] == env;
  }

  lemma KeptEnds(env: seq<string>, now: seq<string>, name: string)
    requires Kept(env, now, |now|, name)
    ensures Without(env, name) == now
  {
    assert now[|now|..] == [] && now[..|now|] == now;
  }

  /** One turn: either entry `ep` goes or it stays. */
  lemma KeptStep(env: seq<string>, now: seq<string>, ep: nat, name: string)
    requires Kept(env, now, ep, name) && ep < |now|
    ensures if Binds(now[ep], name) then Kept(env, now[..ep] + now[ep + 1..], ep, name)
            else Kept(env, now, ep + 1, name)
  {
    var front, e, back := now[..ep], now[ep], now[ep + 1..];
    assert now[ep..] == [e] + back;
    WithoutSplit([e], back, name);
    assert [e][1..] == [];
    if Binds(e, name) {
      Parts(front, back);
    } else {
      assert now[..ep + 1] == front + [e];
      Associate(front, [e], Without(back, name));
    }
  }
}
