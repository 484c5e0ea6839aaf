/** What unsetenv() and setenv() of `proc/setenv.c` do to the list of environment entries. */
module EnvSpec {
  import opened Options

  /** An entry `name=value` for the name; values may contain '='. */
  predicate Binds(entry: string, name: string) {
    |entry| > |name| && entry[..|name|] == name && entry[|name|] == '='
  }

  /** The entries that are not for the name, in order. */
  function Without(env: seq<string>, name: string): seq<string> {
    if env == [] then []
    else (if Binds(env[0], name) then [] else [env[0]]) + Without(env[1..], name)
  }

  function Getenv(env: seq<string>, name: string): Option<string> {
    if env == [] then None
    else if Binds(env[0], name) then Some(env[0][|name| + 1..])
    else Getenv(env[1..], name)
  }

  function Entry(name: string, value: string): string { name + "=" + value }

  /** putenv() of an entry for the name: in place of the first, or at the end. */
  function Put(env: seq<string>, name: string, entry: string): seq<string> {
    if env == [] then [entry]
    else if Binds(env[0], name) then [entry] + env[1..]
    else [env[0]] + Put(env[1..], name, entry)
  }

  /** A successful setenv() that changes something. */
  function Set(env: seq<string>, name: string, value: string): seq<string> {
    Put(Without(env, name), name, Entry(name, value))
  }

  function Count(env: seq<string>, name: string): nat {
    if env == [] then 0 else (if Binds(env[0], name) then 1 else 0) + Count(env[1..], name)
  }

  /** An entry is for one name only. */
  lemma OneName(entry: string, a: string, b: string)
    requires Binds(entry, a) && Binds(entry, b)
    ensures a == b || '=' in a || '=' in b
  {
    if |a| < |b| { assert b[|a|] == entry[|a|]; }
    if |b| < |a| { assert a[|b|] == entry[|b|]; }
  }

  lemma {:induction false} WithoutSplit(a: seq<string>, b: seq<string>, name: string)
    ensures Without(a + b, name) == Without(a, name) + Without(b, name)
  {
    if a == [] {
      assert a + b == b;
    } else {
      assert (a + b)[1..] == a[1..] + b;
      WithoutSplit(a[1..], b, name);
    }
  }

  /** Removing a name removes all its entries and no other variable. */
  lemma {:induction false} WithoutRemoves(env: seq<string>, name: string, other: string)
    requires '=' !in name && '=' !in other
    ensures Count(Without(env, name), name) == 0
    ensures Getenv(Without(env, name), other) == if other == name then None else Getenv(env, other)
  {
    if env != [] {
      WithoutRemoves(env[1..], name, other);
      var rest := Without(env[1..], name);
      if Binds(env[0], name) {
        assert [] + rest == rest;
        if Binds(env[0], other) { OneName(env[0], name, other); }
      } else {
        assert ([env[0]] + rest)[1..] == rest;
      }
    }
  }

  lemma {:induction false} CountZero(env: seq<string>, name: string)
    requires Count(env, name) == 0
    ensures Without(env, name) == env && Getenv(env, name) == None
    ensures forall entry :: Put(env, name, entry) == env + [entry]
  {
    if env != [] { CountZero(env[1..], name); }
  }

  lemma {:induction false} AppendOne(env: seq<string>, entry: string, name: string)
    ensures Count(env + [entry], name) == Count(env, name) + if Binds(entry, name) then 1 else 0
    ensures Getenv(env + [entry], name)
            == if Getenv(env, name).None? && Binds(entry, name) then Some(entry[|name| + 1..]) else Getenv(env, name)
  {
    if env == [] {
      assert [] + [entry] == [entry] && [entry][1..] == [];
    } else {
      assert (env + [entry])[1..] == env[1..] + [entry];
      AppendOne(env[1..], entry, name);
    }
  }

  /** Setting a variable leaves exactly one entry for it, with the value, at the end, and
      every other variable as it was. */
  lemma SetIs(env: seq<string>, name: string, value: string, other: string)
    requires '=' !in name && '=' !in other
    ensures Set(env, name, value) == Without(env, name) + [Entry(name, value)]
    ensures Count(Set(env, name, value), name) == 1
    ensures Getenv(Set(env, name, value), name) == Some(value)
    ensures other != name ==> Getenv(Set(env, name, value), other) == Getenv(env, other)
    ensures Without(Set(env, name, value), name) == Without(env, name)
  {
    var left, entry := Without(env, name), Entry(name, value);
    WithoutRemoves(env, name, name);
    WithoutRemoves(env, name, other);
    CountZero(left, name);
    AppendOne(left, entry, name);
    AppendOne(left, entry, other);
    if Binds(entry, other) { OneName(entry, name, other); }
    WithoutSplit(left, [entry], name);
    assert [entry][1..] == [] && Without([entry], name) == [];
    assert left + [] == left;
  }

  /** The last setenv() of a name wins, and unsetenv() undoes it. */
  lemma SetTwice(env: seq<string>, name: string, value1: string, value2: string)
    requires '=' !in name
    ensures Set(Set(env, name, value1), name, value2) == Set(env, name, value2)
  {
    SetIs(env, name, value1, name);
  }
}
