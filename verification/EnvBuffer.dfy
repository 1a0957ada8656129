/** The boot environment of env/fw_env.c as text: a flat buffer of "name=value" strings, each ended
    by a NUL, the last one by two, edited in place. */
module EnvBuffer {
  import opened Register
  import opened Options

  const NUL: byte := 0x00
  const EQUALS: byte := 0x3d

  /** The name in front of the first '=', or the whole string when there is none. */
  function Key(s: seq<byte>): (k: seq<byte>)
    ensures |k| <= |s| && k == s[..|k|] && EQUALS !in k
    ensures |k| < |s| <==> EQUALS in s
    ensures |k| < |s| ==> s[|k|] == EQUALS
  {
    if s == [] || s[0] == EQUALS then [] else [s[0]] + Key(s[1..])
  }

  predicate CString(s: seq<byte>) {
    NUL !in s
  }

  predicate Entry(e: seq<byte>) {
    CString(e) && EQUALS in e
  }

  function Value(e: seq<byte>): seq<byte>
    requires Entry(e)
  {
    e[|Key(e)| + 1..]
  }

  /** Every string has a name, and no two strings have the same one. */
  ghost predicate WellFormed(vars: seq<seq<byte>>) {
    && (forall i {:trigger Entry(vars[i])} :: 0 <= i < |vars| ==> Entry(vars[i]))
    && (forall i, j {:trigger Key(vars[i]), Key(vars[j])} :: 0 <= i < j < |vars| ==> Key(vars[i]) != Key(vars[j]))
  }

  function Flat(vars: seq<seq<byte>>): seq<byte> {
    if vars == [] then [] else vars[0] + [NUL] + Flat(vars[1..])
  }

  function Image(vars: seq<seq<byte>>): seq<byte> {
    if vars == [] then [NUL, NUL] else Flat(vars) + [NUL]
  }

  lemma {:induction false} FlatConcat(a: seq<seq<byte>>, b: seq<seq<byte>>)
    ensures Flat(a + b) == Flat(a) + Flat(b)
  {
    if a == [] {
      assert a + b == b;
    } else {
      assert (a + b)[1..] == a[1..] + b;
      FlatConcat(a[1..], b);
    }
  }

  lemma FlatSnoc(vars: seq<seq<byte>>, e: seq<byte>)
    ensures Flat(vars + [e]) == Flat(vars) + e + [NUL]
  {
    FlatConcat(vars, [e]);
    assert Flat([e]) == e + [NUL];
    assert Flat(vars) + (e + [NUL]) == Flat(vars) + e + [NUL];
  }

  lemma FlatSplit(pre: seq<seq<byte>>, e: seq<byte>, post: seq<seq<byte>>, front: seq<seq<byte>>, vars: seq<seq<byte>>)
    requires front == pre + [e] && vars == front + post
    ensures Flat(front) == Flat(pre) + e + [NUL]
    ensures Flat(vars) == Flat(front) + Flat(post)
  {
    FlatSnoc(pre, e);
    FlatConcat(front, post);
  }

  lemma SplitAt<T>(s: seq<T>, i: nat)
    requires i < |s|
    ensures s[..i + 1] == s[..i] + [s[i]] && s == s[..i + 1] + s[i + 1..]
  {
  }

  /** Where string i stands in the buffer, and what surrounds it. */
  lemma EntryAt(vars: seq<seq<byte>>, i: nat)
    requires i < |vars|
    ensures Flat(vars[..i + 1]) == Flat(vars[..i]) + vars[i] + [NUL]
    ensures Flat(vars) == Flat(vars[..i + 1]) + Flat(vars[i + 1..])
  {
    SplitAt(vars, i);
    FlatSplit(vars[..i], vars[i], vars[i + 1..], vars[..i + 1], vars);
  }

  function Body(pre: seq<seq<byte>>, post: seq<seq<byte>>): seq<byte> {
    if post == [] then Flat(pre) + [NUL] else Flat(pre) + Flat(post)
  }

  /** What a buffer must begin with to hold the list pre + post. */
  lemma ImageOf(pre: seq<seq<byte>>, post: seq<seq<byte>>, content: seq<byte>)
    requires content == Body(pre, post) + [NUL]
    ensures |Image(pre + post)| <= |content| && content[..|Image(pre + post)|] == Image(pre + post)
  {
    FlatConcat(pre, post);
    if post == [] {
      assert pre + post == pre;
    }
  }

  lemma Behind(vars: seq<seq<byte>>, i: nat, post: seq<seq<byte>>)
    requires WellFormed(vars) && i < |vars| && post == vars[i + 1..]
    ensures forall k :: 0 <= k < |post| ==> Entry(post[k])
  {
  }

  lemma RemovedWellFormed(vars: seq<seq<byte>>, i: nat, rest: seq<seq<byte>>)
    requires WellFormed(vars) && i < |vars| && rest == vars[..i] + vars[i + 1..]
    ensures WellFormed(rest)
    ensures forall m :: 0 <= m < |rest| ==> Key(rest[m]) != Key(vars[i])
  {
    forall m | 0 <= m < |rest|
      ensures Entry(rest[m]) && Key(rest[m]) != Key(vars[i])
    {
      var m' := if m < i then m else m + 1;
      assert rest[m] == vars[m'] && Entry(vars[m']) && Key(vars[m']) != Key(vars[i]);
    }
    forall m, n | 0 <= m < n < |rest|
      ensures Key(rest[m]) != Key(rest[n])
    {
      var m', n' := if m < i then m else m + 1, if n < i then n else n + 1;
      assert rest[m] == vars[m'] && rest[n] == vars[n'] && Key(vars[m']) != Key(vars[n']);
    }
  }

  /** A list of strings with a NUL behind it, at position o of a text. */
  ghost predicate ListAt(text: seq<byte>, o: nat, list: seq<seq<byte>>) {
    && (forall k :: 0 <= k < |list| ==> Entry(list[k]))
    && o + |Flat(list)| < |text|
    && text[o..o + |Flat(list)|] == Flat(list)
    && text[o + |Flat(list)|] == NUL
  }

  lemma ListAtStart(text: seq<byte>, o: nat, list: seq<seq<byte>>)
    requires ListAt(text, o, list)
    ensures text[o] == NUL <==> list == []
  {
    ListStarts(list);
    if list != [] {
      assert text[o] == text[o..o + |Flat(list)|][0];
    }
  }

  lemma TailOf(img: seq<byte>, a: seq<byte>, b: seq<byte>)
    requires img == a + b + [NUL]
    ensures img[|a|..|a| + |b|] == b && img[|a| + |b|] == NUL
  {
  }

  lemma ListStarts(vars: seq<seq<byte>>)
    requires forall i :: 0 <= i < |vars| ==> Entry(vars[i])
    ensures vars != [] ==> Flat(vars) != [] && Flat(vars)[0] != NUL
  {
    if vars != [] {
      assert vars[0][0] in vars[0];
    }
  }

  /** The first place where two NULs stand together is the end of the list. */
  lemma {:induction false} FirstDoubleNul(vars: seq<seq<byte>>, j: nat)
    requires vars != [] && j < |Flat(vars)|
    requires forall i :: 0 <= i < |vars| ==> Entry(vars[i])
    ensures Flat(vars)[|Flat(vars)| - 1] == NUL
    ensures j < |Flat(vars)| - 1 ==> !(Flat(vars)[j] == NUL && Flat(vars)[j + 1] == NUL)
  {
    var e, rest := vars[0], vars[1..];
    if rest == [] {
      assert Flat(vars) == e + [NUL];
    } else {
      assert rest[0] == vars[1] && |rest[0]| > 0;
      assert Flat(rest)[0] == rest[0][0];
      FirstDoubleNul(rest, if j > |e| then j - |e| - 1 else 0);
    }
  }

  /** The position of the string with this name, or the number of strings. */
  function Find(vars: seq<seq<byte>>, key: seq<byte>): (i: nat)
    ensures i <= |vars|
    ensures i < |vars| ==> Key(vars[i]) == key
    ensures forall j :: 0 <= j < i ==> Key(vars[j]) != key
  {
    if vars == [] || Key(vars[0]) == key then 0 else 1 + Find(vars[1..], key)
  }

  function Removed(vars: seq<seq<byte>>, key: seq<byte>): seq<seq<byte>> {
    var i := Find(vars, key);
    if i < |vars| then vars[..i] + vars[i + 1..] else vars
  }

  /** A C string read through a pointer: the characters, then the terminator. */
  function At(s: seq<byte>, i: nat): byte
    requires i <= |s|
  {
    if i < |s| then s[i] else NUL
  }

  lemma AtEnd(s: seq<byte>, i: nat)
    requires CString(s) && i <= |s|
    ensures At(s, i) == NUL <==> i == |s|
  {
    assert i < |s| ==> s[i] in s;
  }

  /** What the comparison loop may assume after a equal characters, none of them '='. */
  ghost predicate Agree(name: seq<byte>, e: seq<byte>, a: nat) {
    && a <= |name| && a <= |Key(e)| <= |e|
    && forall j :: 0 <= j < a ==> name[j] == e[j] != EQUALS
  }

  lemma KeyReaches(s: seq<byte>, a: nat)
    requires a <= |s| && forall j :: 0 <= j < a ==> s[j] != EQUALS
    ensures a <= |Key(s)|
    ensures |Key(s)| == a <==> a == |s| || s[a] == EQUALS
    ensures a < |Key(s)| ==> Key(s)[a] == s[a]
  {
  }

  lemma SameKey(s: seq<byte>, t: seq<byte>)
    ensures Key(s) == Key(t) <==> |Key(s)| == |Key(t)| && forall j :: 0 <= j < |Key(s)| ==> s[j] == t[j]
  {
  }

  lemma AgreeFurther(name: seq<byte>, e: seq<byte>, a: nat)
    requires CString(name) && Entry(e) && Agree(name, e, a) && At(name, a) == e[a] != EQUALS
    ensures Agree(name, e, a + 1)
  {
    KeyReaches(e, a);
    assert e[a] in e;
  }

  lemma AgreeToTheEnd(name: seq<byte>, e: seq<byte>, a: nat)
    requires Agree(name, e, a) && Entry(e) && e[a] == EQUALS && (At(name, a) == EQUALS || a == |name|)
    ensures a == |Key(e)| && Key(name) == Key(e)
  {
    KeyReaches(e, a);
    KeyReaches(name, a);
    SameKey(name, e);
  }

  lemma AgreeNoMore(name: seq<byte>, e: seq<byte>, a: nat)
    requires CString(name) && Agree(name, e, a) && Entry(e)
    requires At(name, a) != e[a] && !(At(name, a) == NUL && e[a] == EQUALS)
    ensures Key(name) != Key(e)
  {
    KeyReaches(e, a);
    KeyReaches(name, a);
    SameKey(name, e);
    assert a < |name| ==> name[a] in name;
  }

  /** The text "ethaddr". */
  const ETHADDR: seq<byte> := [0x65, 0x74, 0x68, 0x61, 0x64, 0x64, 0x72]

  /** The text "serial#". */
  const SERIAL: seq<byte> := [0x73, 0x65, 0x72, 0x69, 0x61, 0x6c, 0x23]

  predicate Guarded(name: seq<byte>) {
    name == ETHADDR || name == SERIAL
  }

  function NewEntry(name: seq<byte>, val: seq<byte>): seq<byte> {
    name + [EQUALS] + val
  }

  datatype Outcome = Done | ReadOnly | Overflow

  function SetOutcome(size: nat, vars: seq<seq<byte>>, name: seq<byte>, val: seq<byte>): Outcome {
    if Guarded(name) && Find(vars, Key(name)) < |vars| then ReadOnly
    else if |Flat(Removed(vars, Key(name)))| + |NewEntry(name, val)| + 2 > size then Overflow
    else Done
  }

  /** What a set does to the list: the old string of that name goes, the others keep their order,
      the new one comes last; it is left out when it does not fit. */
  function SetVars(size: nat, vars: seq<seq<byte>>, name: seq<byte>, val: seq<byte>): seq<seq<byte>> {
    match SetOutcome(size, vars, name, val)
    case ReadOnly => vars
    case Overflow => Removed(vars, Key(name))
    case Done => Removed(vars, Key(name)) + [NewEntry(name, val)]
  }

  lemma Assembled(all: seq<byte>, most: seq<byte>, kept: seq<byte>, at: nat, name: seq<byte>, val: seq<byte>)
    requires |kept| == at + |name| + 1 && kept[at..at + |name|] == name && kept[at + |name|] == EQUALS
    requires |most| == |kept| + |val| && most[..|kept|] == kept && most[|kept|..] == val
    requires |all| == |most| + 2 && all[..|most|] == most && all[|most|..] == [NUL, NUL]
    ensures all[..at] == kept[..at] && all[at..] == NewEntry(name, val) + [NUL, NUL]
  {
    assert most == kept + val && all == most + [NUL, NUL];
    assert kept == kept[..at] + (name + [EQUALS]);
    assert all == kept[..at] + (NewEntry(name, val) + [NUL, NUL]);
  }

  class Environment {
    const data: array<byte>
    ghost var vars: seq<seq<byte>>

    ghost predicate Valid()
      reads this, data
    {
      && WellFormed(vars)
      && |Image(vars)| <= data.Length
      && data[..|Image(vars)|] == Image(vars)
    }

    constructor (data: array<byte>, ghost vars: seq<seq<byte>>)
      requires WellFormed(vars) && |Image(vars)| <= data.Length && data[..|Image(vars)|] == Image(vars)
      ensures Valid() && this.data == data && this.vars == vars
    {
      this.data := data;
      this.vars := vars;
    }

    ghost function Offset(i: nat): nat
      reads this
      requires i <= |vars|
    {
      |Flat(vars[..i])|
    }

    lemma Layout(i: nat)
      requires Valid() && i < |vars|
      ensures Offset(i + 1) == Offset(i) + |vars[i]| + 1 <= |Flat(vars)| < data.Length
      ensures forall k :: Offset(i) <= k < Offset(i) + |vars[i]| ==> data[k] == vars[i][k - Offset(i)] != NUL
      ensures data[Offset(i)] != NUL && data[Offset(i) + |vars[i]|] == NUL
    {
      EntryAt(vars, i);
      assert Entry(vars[i]);
      var o, e := Offset(i), vars[i];
      forall k | o <= k <= o + |e|
        ensures data[k] == (e + [NUL])[k - o]
      {
        assert data[k] == Image(vars)[k] == Flat(vars[..i + 1])[k];
      }
      assert forall k :: 0 <= k < |e| ==> e[k] in e;
    }

    lemma LayoutEnd()
      requires Valid()
      ensures Offset(0) == 0 && Offset(|vars|) == |Flat(vars)| < data.Length && data[|Flat(vars)|] == NUL
    {
      assert vars[..|vars|] == vars;
      assert data[..|Image(vars)|][|Flat(vars)|] == NUL;
    }

    /** envmatch: compare a name, or a "name=value" string, with string i of the buffer. Returns
        the position of the value, or -1. */
    method EnvMatch(name: seq<byte>, env: nat, ghost i: nat) returns (val: int)
      requires Valid() && CString(name) && i < |vars| && env == Offset(i)
      ensures val == if Key(name) == Key(vars[i]) then env + |Key(vars[i])| + 1 else -1
    {
      Layout(i);
      ghost var e := vars[i];
      var a, b := 0, env;
      while At(name, a) == data[b]
        invariant Agree(name, e, a) && b == env + a
        decreases |e| - a
      {
        if At(name, a) == EQUALS {
          AgreeToTheEnd(name, e, a);
          return b + 1;
        }
        AgreeFurther(name, e, a);
        a, b := a + 1, b + 1;
      }
      if At(name, a) == NUL && data[b] == EQUALS {
        AtEnd(name, a);
        AgreeToTheEnd(name, e, a);
        return b + 1;
      }
      AgreeNoMore(name, e, a);
      return -1;
    }

    method EndOfString(env: nat, ghost i: nat) returns (nxt: nat, terminated: bool)
      requires Valid() && i < |vars| && env == Offset(i)
      ensures terminated && nxt == env + |vars[i]| < data.Length && data[nxt] == NUL
    {
      Layout(i);
      nxt := env;
      while data[nxt] != NUL
        invariant env <= nxt <= env + |vars[i]|
        decreases env + |vars[i]| - nxt
      {
        if nxt >= data.Length {
          return nxt, false;
        }
        nxt := nxt + 1;
      }
      return nxt, true;
    }

    /** The search that fw_getenv and fw_setenv start with. */
    method Search(name: seq<byte>) returns (env: nat, nxt: nat, oldval: int, terminated: bool)
      requires Valid() && CString(name)
      ensures terminated
      ensures var i := Find(vars, Key(name));
        if i < |vars| then env == Offset(i) && nxt == env + |vars[i]| && oldval == env + |Key(name)| + 1
        else oldval == -1
    {
      AtString(0);
      env, nxt, oldval := 0, 0, -1;
      ghost var i, found := 0, Find(vars, Key(name));
      while data[env] != NUL
        invariant i <= |vars| && env == Offset(i) < data.Length && (data[env] != NUL <==> i < |vars|)
        invariant i <= found
        decreases |vars| - i
      {
        nxt, terminated := EndOfString(env, i);
        if !terminated {
          return env, nxt, -1, false;
        }
        oldval := EnvMatch(name, env, i);
        if oldval != -1 {
          return env, nxt, oldval, true;
        }
        Layout(i);
        AtString(i + 1);
        env, i := nxt + 1, i + 1;
      }
      return env, nxt, -1, true;
    }

    lemma AtString(i: nat)
      requires Valid() && i <= |vars|
      ensures Offset(0) == 0 && Offset(i) < data.Length && (data[Offset(i)] != NUL <==> i < |vars|)
    {
      if i < |vars| {
        Layout(i);
      } else {
        LayoutEnd();
      }
    }

    lemma Head(i: nat)
      requires Valid() && i < |vars|
      ensures Offset(i) <= data.Length && data[..Offset(i)] == Flat(vars[..i])
    {
      EntryAt(vars, i);
      assert data[..Offset(i)] == data[..|Image(vars)|][..Offset(i)];
    }

    lemma Joined(m: nat, n: nat)
      requires m <= n <= data.Length
      ensures data[..n] == data[..m] + data[m..n]
    {
    }

    lemma Tail(i: nat, o: nat, post: seq<seq<byte>>)
      requires Valid() && i < |vars| && o == Offset(i) + |vars[i]| + 1 && post == vars[i + 1..]
      ensures ListAt(data[..], o, post)
    {
      EntryAt(vars, i);
      TailOf(data[..|Image(vars)|], Flat(vars[..i + 1]), Flat(post));
      assert data[..][o..o + |Flat(post)|] == data[..|Image(vars)|][o..o + |Flat(post)|];
      Behind(vars, i, post);
    }

    /** Copy a text down to env0, up to its double NUL, which only its end makes. */
    method MoveText(env0: nat, nxt0: nat, ghost text: seq<byte>) returns (env: nat)
      requires text != [] && env0 < nxt0 && nxt0 + |text| < data.Length && data[nxt0 + |text|] == NUL
      requires forall k :: nxt0 <= k < nxt0 + |text| ==> data[k] == text[k - nxt0]
      requires text[|text| - 1] == NUL && forall j :: 0 <= j < |text| - 1 ==> !(text[j] == NUL && text[j + 1] == NUL)
      modifies data
      ensures env == env0 + |text| - 1
      ensures forall k :: 0 <= k < env0 ==> data[k] == old(data[k])
      ensures forall k :: env0 <= k <= env ==> data[k] == text[k - env0]
    {
      env := env0;
      var nxt := nxt0;
      while true
        invariant env0 <= env < env0 + |text| && nxt == nxt0 + (env - env0)
        invariant forall k :: 0 <= k < env0 ==> data[k] == old(data[k])
        invariant forall k :: env0 <= k < env ==> data[k] == text[k - env0]
        invariant forall k :: nxt <= k < nxt0 + |text| ==> data[k] == text[k - nxt0]
        invariant data[nxt0 + |text|] == NUL
        decreases env0 + |text| - env
      {
        data[env] := data[nxt];
        nxt := nxt + 1;
        if data[env] == NUL && data[nxt] == NUL {
          break;
        }
        env := env + 1;
      }
    }

    /** Copy a list of strings down to env0. */
    method MoveDown(env0: nat, nxt0: nat, ghost post: seq<seq<byte>>) returns (env: nat)
      requires post != [] && env0 < nxt0 && ListAt(data[..], nxt0, post)
      modifies data
      ensures |Flat(post)| > 0 && env == env0 + |Flat(post)| - 1
      ensures data[..env0] == old(data[..env0]) && data[env0..env + 1] == Flat(post)
    {
      ghost var text := Flat(post);
      ListStarts(post);
      Moving(nxt0, post);
      FirstDoubleNul(post, 0);
      forall j | 0 <= j < |text| - 1
        ensures !(text[j] == NUL && text[j + 1] == NUL)
      {
        FirstDoubleNul(post, j);
      }
      env := MoveText(env0, nxt0, text);
    }

    lemma Moving(nxt0: nat, post: seq<seq<byte>>)
      requires ListAt(data[..], nxt0, post)
      ensures nxt0 + |Flat(post)| < data.Length && data[nxt0 + |Flat(post)|] == NUL
      ensures forall k :: nxt0 <= k < nxt0 + |Flat(post)| ==> data[k] == Flat(post)[k - nxt0]
    {
      forall k | nxt0 <= k < nxt0 + |Flat(post)|
        ensures data[k] == Flat(post)[k - nxt0]
      {
        assert data[k] == data[..][nxt0..nxt0 + |Flat(post)|][k - nxt0];
      }
    }

    method CloseGap(env0: nat, nxt: nat, ghost kept: seq<byte>, ghost post: seq<seq<byte>>) returns (env: nat)
      requires env0 < nxt < data.Length && data[..env0] == kept && ListAt(data[..], nxt, post)
      modifies data
      ensures env + 1 < data.Length
      ensures data[..env + 1] == if post == [] then kept + [NUL] else kept + Flat(post)
    {
      ListAtStart(data[..], nxt, post);
      env := env0;
      if data[nxt] == NUL {
        data[env] := NUL;
      } else {
        env := MoveDown(env, nxt, post);
      }
      Joined(env0, env + 1);
    }

    /** The first half of fw_setenv: move the strings behind string i over it. */
    method Delete(env0: nat, nxt: nat, ghost i: nat)
      requires Valid() && i < |vars| && env0 == Offset(i) && nxt == env0 + |vars[i]|
      modifies this`vars, data
      ensures Valid() && vars == old(vars[..i] + vars[i + 1..])
    {
      ghost var pre, post := vars[..i], vars[i + 1..];
      RemovedWellFormed(vars, i, pre + post);
      Tail(i, nxt + 1, post);
      Head(i);
      var env := CloseGap(env0, nxt + 1, Flat(pre), post);
      env := env + 1;
      ghost var body := data[..env];
      data[env] := NUL;
      Joined(env, env + 1);
      assert data[..env] == body == Body(pre, post) && data[env..env + 1] == [NUL];
      Settle(pre, post, env + 1);
    }

    ghost method Settle(pre: seq<seq<byte>>, post: seq<seq<byte>>, n: nat)
      requires n <= data.Length && WellFormed(pre + post)
      requires data[..n] == Body(pre, post) + [NUL]
      modifies this`vars
      ensures Valid() && vars == pre + post
    {
      ImageOf(pre, post, data[..n]);
      assert data[..|Image(pre + post)|] == data[..n][..|Image(pre + post)|];
      vars := pre + post;
    }

    /** Find the end of the list: the place where the next string goes. */
    method FindEnd() returns (env: nat)
      requires Valid()
      ensures env == |Flat(vars)| && data[..env] == Flat(vars)
    {
      ghost var img := Image(vars);
      assert forall k :: 0 <= k < |img| ==> data[k] == data[..|img|][k] == img[k];
      env := 0;
      while data[env] != NUL || data[env + 1] != NUL
        invariant env <= |img| - 2
        decreases |img| - env
      {
        if vars != [] {
          FirstDoubleNul(vars, env);
        }
        env := env + 1;
      }
      if vars != [] {
        FirstDoubleNul(vars, env);
      }
      if env > 0 {
        env := env + 1;
      }
      assert data[..|img|][..|Flat(vars)|] == Flat(vars);
    }

    /** Copy a C string to position env0, without its terminator. */
    method CopyString(env0: nat, s: seq<byte>) returns (env: nat)
      requires env0 + |s| <= data.Length
      modifies data
      ensures env == env0 + |s| && data[..env0] == old(data[..env0]) && data[env0..env] == s
    {
      env := env0;
      for i := 0 to |s|
        invariant env == env0 + i && data[..env0] == old(data[..env0]) && data[env0..env] == s[..i]
      {
        data[env] := s[i];
        env := env + 1;
        assert data[env0..env] == s[..i] + [s[i]];
      }
    }

    /** The second half of fw_setenv: write name, '=', value and two NULs from position env on. */
    method Write(env0: nat, name: seq<byte>, val: seq<byte>)
      requires env0 + |NewEntry(name, val)| + 2 <= data.Length
      modifies data
      ensures data[..env0] == old(data[..env0])
      ensures data[env0..env0 + |NewEntry(name, val)| + 2] == NewEntry(name, val) + [NUL, NUL]
    {
      var env := CopyString(env0, name);
      data[env] := EQUALS;
      env := env + 1;
      ghost var kept := data[..env];
      env := CopyString(env, val);
      ghost var most := data[..env];
      data[env], data[env + 1] := NUL, NUL;
      Assembled(data[..env + 2], most, kept, env0, name, val);
    }

    ghost method Extend(name: seq<byte>, val: seq<byte>, n: nat)
      requires n <= data.Length && WellFormed(vars + [NewEntry(name, val)])
      requires data[..n] == Flat(vars) + NewEntry(name, val) + [NUL, NUL]
      modifies this`vars
      ensures Valid() && vars == old(vars) + [NewEntry(name, val)]
    {
      FlatSnoc(vars, NewEntry(name, val));
      vars := vars + [NewEntry(name, val)];
      assert data[..n] == Image(vars);
    }

    method DeleteOld(name: seq<byte>) returns (ok: bool)
      requires Valid() && CString(name)
      modifies this`vars, data
      ensures Valid()
      ensures ok <==> !(Guarded(name) && Find(old(vars), Key(name)) < |old(vars)|)
      ensures vars == if ok then Removed(old(vars), Key(name)) else old(vars)
    {
      var env, nxt, oldval, terminated := Search(name);
      if !terminated {
        return false;
      }
      if oldval != -1 {
        if Guarded(name) {
          return false;
        }
        Delete(env, nxt, Find(vars, Key(name)));
      }
      return true;
    }

    method AppendNew(name: seq<byte>, val: seq<byte>) returns (ok: bool)
      requires Valid() && WellFormed(vars + [NewEntry(name, val)])
      modifies this`vars, data
      ensures Valid()
      ensures ok <==> |Flat(old(vars))| + |NewEntry(name, val)| + 2 <= data.Length
      ensures vars == if ok then old(vars) + [NewEntry(name, val)] else old(vars)
    {
      var env := FindEnd();
      var len := |name| + 2 + |val| + 1;
      if len > data.Length - env {
        return false;
      }
      ghost var kept := data[..env];
      Write(env, name, val);
      assert data[..env + len] == kept + data[env..env + len];
      Extend(name, val, env + len);
      return true;
    }

    /** fw_setenv. Zero is success; on -1 the buffer is unchanged if the variable may not be
        overwritten, and has lost the variable if its new value does not fit. */
    method SetEnv(name: seq<byte>, val: seq<byte>) returns (rc: int)
      requires Valid() && CString(name) && CString(val)
      modifies this`vars, data
      ensures Valid() && vars == SetVars(data.Length, old(vars), name, val)
      ensures rc == if SetOutcome(data.Length, old(vars), name, val) == Done then 0 else -1
      // "ethaddr" and "serial#" are refused when they are defined, and any other set that fits is done
      ensures var once, rest := name == [0x65, 0x74, 0x68, 0x61, 0x64, 0x64, 0x72] || name == [0x73, 0x65, 0x72, 0x69, 0x61, 0x6c, 0x23], Removed(old(vars), Key(name));
        var refused, fits := once && Lookup(old(vars), name) != None, |Flat(rest)| + |name| + |val| + 3 <= data.Length;
        && (refused ==> rc == -1 && vars == old(vars))
        && (!refused && fits ==> rc == 0 && vars == rest + [name + [0x3d] + val])
        && (!refused && !fits ==> rc == -1 && vars == rest)
    {
      SetByName(data.Length, vars, name, val);
      NewEntryFits(vars, name, val);
      var ok := DeleteOld(name);
      if ok {
        ok := AppendNew(name, val);
      }
      rc := if ok then 0 else -1;
    }

    /** fw_getenv: the position of the value text, or -1. */
    method GetEnv(name: seq<byte>) returns (val: int)
      requires Valid() && CString(name)
      ensures val == -1 <==> Lookup(vars, Key(name)) == None
      ensures val != -1 ==> var v := Lookup(vars, Key(name)).value;
        0 <= val && val + |v| < data.Length && data[val..val + |v|] == v && data[val + |v|] == NUL
    {
      var env, nxt, oldval, terminated := Search(name);
      val := oldval;
      ghost var i := Find(vars, Key(name));
      if i < |vars| {
        ValueAt(i);
      }
    }

    lemma ValueAt(i: nat)
      requires Valid() && i < |vars|
      ensures var o := Offset(i) + |Key(vars[i])| + 1;
        && o + |Value(vars[i])| == Offset(i) + |vars[i]| < data.Length
        && data[o..o + |Value(vars[i])|] == Value(vars[i]) && data[o + |Value(vars[i])|] == NUL
    {
      Layout(i);
      assert Entry(vars[i]);
    }
  }

  function Lookup(vars: seq<seq<byte>>, key: seq<byte>): Option<seq<byte>> {
    var i := Find(vars, key);
    if i < |vars| && Entry(vars[i]) then Some(Value(vars[i])) else None
  }

  lemma NewEntryKey(name: seq<byte>, val: seq<byte>)
    requires CString(name) && CString(val)
    ensures Entry(NewEntry(name, val)) && Key(NewEntry(name, val)) == Key(name)
  {
    var e := NewEntry(name, val);
    assert e[|name|] == EQUALS && EQUALS in e;
    KeyReaches(e, |Key(name)|);
    SameKey(e, name);
  }

  lemma RemovedKeys(vars: seq<seq<byte>>, key: seq<byte>)
    requires WellFormed(vars)
    ensures WellFormed(Removed(vars, key))
    ensures forall i :: 0 <= i < |Removed(vars, key)| ==> Key(Removed(vars, key)[i]) != key
  {
    if Find(vars, key) < |vars| {
      RemovedWellFormed(vars, Find(vars, key), Removed(vars, key));
    }
  }

  /** The new string is a definition of the name, and is the only one. */
  lemma NewEntryFits(vars: seq<seq<byte>>, name: seq<byte>, val: seq<byte>)
    requires WellFormed(vars) && CString(name) && CString(val)
    ensures WellFormed(Removed(vars, Key(name)) + [NewEntry(name, val)])
  {
    NewEntryKey(name, val);
    RemovedKeys(vars, Key(name));
  }

  // What a set means for the variables.

  lemma LookupAt(vars: seq<seq<byte>>, i: nat)
    requires WellFormed(vars) && i < |vars|
    ensures Find(vars, Key(vars[i])) == i && Lookup(vars, Key(vars[i])) == Some(Value(vars[i]))
  {
  }

  /** Where a string that stays ends up. */
  function PlaceAfter(vars: seq<seq<byte>>, key: seq<byte>, j: nat): nat {
    if Find(vars, key) < j then j - 1 else j
  }

  lemma PlaceOf(vars: seq<seq<byte>>, key: seq<byte>, j: nat)
    requires j < |vars| && Key(vars[j]) != key
    ensures PlaceAfter(vars, key, j) < |Removed(vars, key)| && Removed(vars, key)[PlaceAfter(vars, key, j)] == vars[j]
  {
    var i, rest := Find(vars, key), Removed(vars, key);
    if i < j {
      assert rest == vars[..i] + vars[i + 1..];
      assert rest[j - 1] == vars[i + 1..][j - 1 - i];
    } else {
      assert i != j && vars[..i][j] == vars[j];
    }
  }

  lemma RemovedPlace(vars: seq<seq<byte>>, key: seq<byte>, j: nat)
    requires WellFormed(vars) && j < |vars| && Key(vars[j]) != key
    ensures WellFormed(Removed(vars, key)) && PlaceAfter(vars, key, j) < |Removed(vars, key)|
    ensures Removed(vars, key)[PlaceAfter(vars, key, j)] == vars[j]
  {
    PlaceOf(vars, key, j);
    RemovedKeys(vars, key);
  }

  lemma LookupRemoved(vars: seq<seq<byte>>, key: seq<byte>, k: seq<byte>)
    requires WellFormed(vars)
    ensures Lookup(Removed(vars, key), k) == if k == key then None else Lookup(vars, k)
  {
    RemovedKeys(vars, key);
    var i, rest := Find(vars, key), Removed(vars, key);
    assert forall m :: 0 <= m < |rest| ==> rest[m] == vars[if m < i then m else m + 1];
    var j := Find(vars, k);
    if k != key && j < |vars| {
      RemovedPlace(vars, key, j);
      LookupAt(vars, j);
      LookupAt(rest, PlaceAfter(vars, key, j));
    }
  }

  lemma LookupAppended(vars: seq<seq<byte>>, e: seq<byte>, k: seq<byte>)
    requires Entry(e) && WellFormed(vars + [e])
    ensures WellFormed(vars) && Lookup(vars + [e], k) == if k == Key(e) then Some(Value(e)) else Lookup(vars, k)
    ensures Find(vars, k) < |vars| ==> Find(vars + [e], k) == Find(vars, k)
  {
    var all := vars + [e];
    assert forall i :: 0 <= i < |vars| ==> all[i] == vars[i];
    assert WellFormed(vars);
    LookupAt(all, |vars|);
    var j := Find(vars, k);
    if j < |vars| {
      LookupAt(all, j);
      LookupAt(vars, j);
    }
  }

  lemma SetWellFormed(size: nat, vars: seq<seq<byte>>, name: seq<byte>, val: seq<byte>)
    requires WellFormed(vars) && CString(name) && CString(val)
    ensures WellFormed(SetVars(size, vars, name, val))
  {
    NewEntryFits(vars, name, val);
    RemovedKeys(vars, Key(name));
  }

  /** The buffer behaves as a finite map: a set that succeeds puts the value under the name, one
      that overflows takes the name out, one that is refused changes nothing; no other name is
      touched. A name may itself contain '='; then only its first part is the name and the rest
      becomes part of the value. */
  lemma SetRefinesMap(size: nat, vars: seq<seq<byte>>, name: seq<byte>, val: seq<byte>, k: seq<byte>)
    requires WellFormed(vars) && CString(name) && CString(val)
    ensures WellFormed(SetVars(size, vars, name, val))
    ensures Lookup(SetVars(size, vars, name, val), k) ==
      match SetOutcome(size, vars, name, val)
      case ReadOnly => Lookup(vars, k)
      case Overflow => if k == Key(name) then None else Lookup(vars, k)
      case Done => if k == Key(name) then Some(StoredValue(name, val)) else Lookup(vars, k)
  {
    SetWellFormed(size, vars, name, val);
    LookupRemoved(vars, Key(name), k);
    if SetOutcome(size, vars, name, val) == Done {
      NewEntryKey(name, val);
      LookupAppended(Removed(vars, Key(name)), NewEntry(name, val), k);
      ValueOfNew(name, val);
    }
  }

  function StoredValue(name: seq<byte>, val: seq<byte>): seq<byte> {
    if EQUALS in name then name[|Key(name)| + 1..] + [EQUALS] + val else val
  }

  lemma ValueOfNew(name: seq<byte>, val: seq<byte>)
    requires CString(name) && CString(val)
    ensures Entry(NewEntry(name, val)) && Value(NewEntry(name, val)) == StoredValue(name, val)
  {
    NewEntryKey(name, val);
    var k := |Key(name)|;
    if EQUALS in name {
      assert NewEntry(name, val)[k + 1..] == name[k + 1..] + [EQUALS] + val;
    } else {
      assert k == |name| && NewEntry(name, val)[k + 1..] == val;
    }
  }

  lemma SetPlace(size: nat, vars: seq<seq<byte>>, name: seq<byte>, val: seq<byte>, j: nat)
    requires WellFormed(vars) && CString(name) && CString(val) && j < |vars| && Key(vars[j]) != Key(name)
    ensures Find(SetVars(size, vars, name, val), Key(vars[j])) < |SetVars(size, vars, name, val)|
    ensures Find(SetVars(size, vars, name, val), Key(vars[j])) ==
      if SetOutcome(size, vars, name, val) == ReadOnly then j else PlaceAfter(vars, Key(name), j)
  {
    LookupAt(vars, j);
    RemovedPlace(vars, Key(name), j);
    LookupAt(Removed(vars, Key(name)), PlaceAfter(vars, Key(name), j));
    if SetOutcome(size, vars, name, val) == Done {
      SetWellFormed(size, vars, name, val);
      NewEntryKey(name, val);
      LookupAppended(Removed(vars, Key(name)), NewEntry(name, val), Key(vars[j]));
    }
  }

  /** The variables that are not set keep their order. */
  lemma SetKeepsOrder(size: nat, vars: seq<seq<byte>>, name: seq<byte>, val: seq<byte>, i: nat, j: nat)
    requires WellFormed(vars) && CString(name) && CString(val)
    requires i < j < |vars| && Key(vars[i]) != Key(name) && Key(vars[j]) != Key(name)
    ensures Find(SetVars(size, vars, name, val), Key(vars[i])) < Find(SetVars(size, vars, name, val), Key(vars[j]))
  {
    SetPlace(size, vars, name, val, i);
    SetPlace(size, vars, name, val, j);
    assert Find(vars, Key(name)) != i && Find(vars, Key(name)) != j;
  }

  // Variables that can be set only once.

  /** The call names the variable plainly, or not at all. */
  predicate NamesPlainly(name: seq<byte>, key: seq<byte>) {
    Key(name) == key ==> name == key
  }

  lemma GuardedIsPlain(name: seq<byte>)
    requires Guarded(name)
    ensures EQUALS !in name && Key(name) == name
  {
  }

  /** A set through a longer name is never refused, and stores more than the value. */
  lemma LongNameStores(size: nat, vars: seq<seq<byte>>, name: seq<byte>, val: seq<byte>)
    requires WellFormed(vars) && CString(name) && CString(val) && EQUALS in name
    ensures SetOutcome(size, vars, name, val) != ReadOnly
    ensures Lookup(SetVars(size, vars, name, val), Key(name)) ==
      if SetOutcome(size, vars, name, val) == Done then Some(StoredValue(name, val)) else None
  {
    SetRefinesMap(size, vars, name, val, Key(name));
    if Guarded(name) {
      GuardedIsPlain(name);
    }
  }

  lemma PlainNameKeeps(size: nat, vars: seq<seq<byte>>, name: seq<byte>, val: seq<byte>, key: seq<byte>)
    requires WellFormed(vars) && CString(name) && CString(val) && NamesPlainly(name, key)
    requires Guarded(key) && Lookup(vars, key) != None
    ensures Lookup(SetVars(size, vars, name, val), key) == Lookup(vars, key)
  {
    SetRefinesMap(size, vars, name, val, key);
  }

  lemma LongNameChanges(size: nat, vars: seq<seq<byte>>, name: seq<byte>, key: seq<byte>) returns (val: seq<byte>)
    requires WellFormed(vars) && CString(name) && !NamesPlainly(name, key)
    requires Lookup(vars, key) != None
    ensures CString(val) && Lookup(SetVars(size, vars, name, val), key) != Lookup(vars, key)
  {
    assert EQUALS in name;
    LongNameStores(size, vars, name, []);
    LongNameStores(size, vars, name, [0x78]);
    assert |StoredValue(name, [])| != |StoredValue(name, [0x78])|;
    val := if Lookup(vars, key) == Some(StoredValue(name, [])) then [0x78] else [];
  }

  /** When does a defined ethaddr or serial# survive a set? The source compares the whole name with
      the two protected ones, but searches by the part in front of '='. So a set can never change
      the variable, whatever its value, if and only if it does not reach it by such a longer name. */
  lemma ProtectedExactly(size: nat, vars: seq<seq<byte>>, name: seq<byte>, key: seq<byte>)
    requires key == [0x65, 0x74, 0x68, 0x61, 0x64, 0x64, 0x72] || key == [0x73, 0x65, 0x72, 0x69, 0x61, 0x6c, 0x23]
    requires WellFormed(vars) && CString(name) && Lookup(vars, key) != None
    ensures NamesPlainly(name, key) <==>
      forall val :: CString(val) ==> Lookup(SetVars(size, vars, name, val), key) == Lookup(vars, key)
  {
    TwoNames(key);
    if NamesPlainly(name, key) {
      forall val | CString(val)
        ensures Lookup(SetVars(size, vars, name, val), key) == Lookup(vars, key)
      {
        PlainNameKeeps(size, vars, name, val, key);
      }
    } else {
      var val := LongNameChanges(size, vars, name, key);
    }
  }

  lemma LongEthaddr()
    ensures CString(ETHADDR + [EQUALS]) && Key(ETHADDR + [EQUALS]) == ETHADDR && EQUALS in ETHADDR + [EQUALS]
  {
    GuardedIsPlain(ETHADDR);
    NewEntryKey(ETHADDR, []);
    assert NewEntry(ETHADDR, []) == ETHADDR + [EQUALS];
  }

  lemma StoredBehind(key: seq<byte>, w: seq<byte>, name: seq<byte>)
    requires name == key + [EQUALS] && Key(name) == key && EQUALS in name
    ensures StoredValue(name, w) == [EQUALS] + w
  {
    assert name[|key| + 1..] == [];
  }

  lemma FitsExactly(size: nat, vars: seq<seq<byte>>, name: seq<byte>, w: seq<byte>)
    requires size == |name| + |w| + 3 && Removed(vars, Key(name)) == [] && SetOutcome(size, vars, name, w) != ReadOnly
    ensures SetOutcome(size, vars, name, w) == Done
  {
  }

  lemma TwoNames(name: seq<byte>)
    ensures Guarded(name) <==> name == [0x65, 0x74, 0x68, 0x61, 0x64, 0x64, 0x72] || name == [0x73, 0x65, 0x72, 0x69, 0x61, 0x6c, 0x23]
  {
  }

  lemma FoundIsDefined(vars: seq<seq<byte>>, key: seq<byte>)
    requires WellFormed(vars)
    ensures Find(vars, key) < |vars| <==> Lookup(vars, key) != None
  {
  }

  /** What a set comes to, by the two names. */
  lemma SetByName(size: nat, vars: seq<seq<byte>>, name: seq<byte>, val: seq<byte>)
    requires WellFormed(vars)
    ensures var once, rest := name == [0x65, 0x74, 0x68, 0x61, 0x64, 0x64, 0x72] || name == [0x73, 0x65, 0x72, 0x69, 0x61, 0x6c, 0x23], Removed(vars, Key(name));
      var refused, fits := once && Lookup(vars, name) != None, |Flat(rest)| + |name| + |val| + 3 <= size;
      && (refused ==> SetOutcome(size, vars, name, val) == ReadOnly && SetVars(size, vars, name, val) == vars)
      && (!refused && fits ==>
            SetOutcome(size, vars, name, val) == Done && SetVars(size, vars, name, val) == rest + [name + [0x3d] + val])
      && (!refused && !fits ==> SetOutcome(size, vars, name, val) == Overflow && SetVars(size, vars, name, val) == rest)
  {
    TwoNames(name);
    FoundIsDefined(vars, name);
    if Guarded(name) {
      GuardedIsPlain(name);
    }
  }

  lemma LongNameReplaces(key: seq<byte>, v: seq<byte>, w: seq<byte>, name: seq<byte>, vars: seq<seq<byte>>)
    requires EQUALS !in key && Key(key) == key && CString(key) && CString(v) && CString(w)
    requires name == key + [EQUALS] && Key(name) == key && EQUALS in name && CString(name) && vars == [NewEntry(key, v)]
    ensures WellFormed(vars) && Lookup(vars, key) == Some(v)
    ensures Lookup(SetVars(|name| + |w| + 3, vars, name, w), key) == Some([EQUALS] + w)
  {
    OneVariable(key, v, vars);
    var size := |name| + |w| + 3;
    LongNameStores(size, vars, name, w);
    FitsExactly(size, vars, name, w);
    StoredBehind(key, w, name);
  }

  /** The set-once rule is not kept for such a name: a set of "ethaddr=" replaces a defined ethaddr. */
  lemma SetOnceCounterexample(v: seq<byte>, w: seq<byte>, name: seq<byte>, vars: seq<seq<byte>>)
    requires CString(v) && CString(w) && name == ETHADDR + [EQUALS] && vars == [NewEntry(ETHADDR, v)]
    ensures WellFormed(vars) && Lookup(vars, ETHADDR) == Some(v)
    ensures Lookup(SetVars(|name| + |w| + 3, vars, name, w), ETHADDR) == Some([EQUALS] + w)
  {
    GuardedIsPlain(ETHADDR);
    LongEthaddr();
    LongNameReplaces(ETHADDR, v, w, name, vars);
  }

  lemma OneVariable(key: seq<byte>, v: seq<byte>, vars: seq<seq<byte>>)
    requires EQUALS !in key && Key(key) == key && CString(key) && CString(v) && vars == [NewEntry(key, v)]
    ensures WellFormed(vars) && Lookup(vars, key) == Some(v) && Removed(vars, key) == []
  {
    NewEntryKey(key, v);
    ValueOfNew(key, v);
    LookupAt(vars, 0);
  }

  datatype Call = Call(name: seq<byte>, val: seq<byte>)

  function Run(size: nat, vars: seq<seq<byte>>, calls: seq<Call>): seq<seq<byte>>
    decreases |calls|
  {
    if calls == [] then vars
    else Run(size, SetVars(size, vars, calls[0].name, calls[0].val), calls[1..])
  }

  /** Once ethaddr or serial# is defined, no later run of sets that name it plainly changes it. */
  lemma {:induction false} ProtectedForever(size: nat, vars: seq<seq<byte>>, calls: seq<Call>, key: seq<byte>)
    requires key == [0x65, 0x74, 0x68, 0x61, 0x64, 0x64, 0x72] || key == [0x73, 0x65, 0x72, 0x69, 0x61, 0x6c, 0x23]
    requires WellFormed(vars) && Lookup(vars, key) != None
    requires forall i :: 0 <= i < |calls| ==>
      CString(calls[i].name) && CString(calls[i].val) && NamesPlainly(calls[i].name, key)
    ensures WellFormed(Run(size, vars, calls)) && Lookup(Run(size, vars, calls), key) == Lookup(vars, key)
    decreases |calls|
  {
    if calls != [] {
      var c := calls[0];
      TwoNames(key);
      SetRefinesMap(size, vars, c.name, c.val, key);
      ProtectedForever(size, SetVars(size, vars, c.name, c.val), calls[1..], key);
    }
  }
}
