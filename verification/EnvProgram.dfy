/** A program that uses the boot environment, as main.c does: it starts, changes variables and saves;
    what is saved is what the next start reads. Here the text of EnvBuffer is the data of EnvNand. */
module EnvProgram {
  import opened Register
  import opened Options
  import Buffer = EnvBuffer
  import Nand = EnvNand
  import Save = EnvSave

  /** The data of a copy begins with the text of these variables. */
  ghost predicate Holds(data: seq<byte>, vars: seq<seq<byte>>) {
    var image := Buffer.Image(vars);
    Buffer.WellFormed(vars) && |image| <= |data| && data[..|image|] == image
  }

  ghost predicate CStrings(calls: seq<Buffer.Call>) {
    forall i :: 0 <= i < |calls| ==> Buffer.CString(calls[i].name) && Buffer.CString(calls[i].val)
  }

  /** The calls of fw_setenv, in order; the program does not look at their results. */
  method Sets(text: Buffer.Environment, calls: seq<Buffer.Call>)
    requires text.Valid() && CStrings(calls)
    modifies text`vars, text.data
    ensures text.Valid() && text.vars == Buffer.Run(text.data.Length, old(text.vars), calls)
  {
    var i := 0;
    ghost var size := text.data.Length;
    assert calls[0..] == calls;
    while i < |calls|
      invariant i <= |calls| && text.Valid()
      invariant Buffer.Run(size, text.vars, calls[i..]) == Buffer.Run(size, old(text.vars), calls)
    {
      assert calls[i..][0] == calls[i] && calls[i..][1..] == calls[i + 1..];
      var rc := text.SetEnv(calls[i].name, calls[i].val);
      i := i + 1;
    }
  }

  /** A buffer that holds some variables, as text. */
  method TextOf(a: array<byte>, ghost vars: seq<seq<byte>>) returns (text: Buffer.Environment)
    requires Holds(a[..], vars)
    ensures text.Valid() && fresh(text) && text.data == a && text.vars == vars
  {
    assert a[..|Buffer.Image(vars)|] == a[..][..|Buffer.Image(vars)|];
    text := new Buffer.Environment(a, vars);
  }

  /** The calls on the text in a buffer. */
  method SetAll(a: array<byte>, ghost vars: seq<seq<byte>>, calls: seq<Buffer.Call>)
    requires Holds(a[..], vars) && CStrings(calls)
    modifies a
    ensures Holds(a[..], Buffer.Run(a.Length, vars, calls))
  {
    var text := TextOf(a, vars);
    Sets(text, calls);
    ghost var image := Buffer.Image(text.vars);
    assert a[..][..|image|] == a[..|image|];
  }

  /** fw_getenv on the text in a buffer. */
  method Get(a: array<byte>, ghost vars: seq<seq<byte>>, name: seq<byte>) returns (val: int)
    requires Holds(a[..], vars) && Buffer.CString(name)
    ensures val == -1 <==> Buffer.Lookup(vars, Buffer.Key(name)) == None
    ensures val != -1 ==> ValueAt(a[..], val, Buffer.Lookup(vars, Buffer.Key(name)).value)
  {
    var text := TextOf(a, vars);
    val := text.GetEnv(name);
    if val != -1 {
      ghost var v := Buffer.Lookup(vars, Buffer.Key(name)).value;
      assert a[..][val..val + |v|] == a[val..val + |v|];
    }
  }

  /** The data of the environment in memory. */
  method DataOf(env: Nand.Environment) returns (a: array<byte>)
    requires env.Valid()
    ensures fresh(a) && a.Length == env.size - Nand.HEADER && a[..] == env.Loaded().data == env.image[..][Nand.HEADER..]
  {
    a := new byte[env.size - Nand.HEADER];
    forall i | 0 <= i < a.Length {
      a[i] := env.image[Nand.HEADER + i];
    }
    assert a[..] == env.image[..][Nand.HEADER..] == env.Loaded().data;
  }

  /** The variables are set and the environment is saved: the next start has exactly the variables
      that the calls make of the old ones, unless the flag wraps on device 0; then, or after a torn
      save, it has the old ones. */
  method ChangeAndSave(env: Nand.Environment, ghost vars: seq<seq<byte>>, calls: seq<Buffer.Call>,
                       standard: seq<byte>, faults0: Nand.Faults, faults1: Nand.Faults, faults: Nand.Faults)
    returns (rc: int, ghost loaded: Save.Session)
    requires env.Valid() && |standard| <= env.size - Nand.HEADER && CStrings(calls)
    requires Save.Recoverable(env.Copies()) && Holds(Save.Init(Save.Incremental, env.Copies(), standard).data, vars)
    modifies env, env.zero.mem, env.one.mem
    ensures env.Valid() && (rc == 0 || rc == -1)
    ensures loaded == Save.Init(Save.Incremental, old(env.Copies()), standard)
    ensures rc == 0 && !Save.Wraps(Save.Incremental, loaded) ==>
      Holds(Save.Init(Save.Incremental, env.Copies(), standard).data, Buffer.Run(env.size - Nand.HEADER, vars, calls))
    ensures rc == 0 && Save.Wraps(Save.Incremental, loaded) ==> Save.Init(Save.Incremental, env.Copies(), standard) == loaded
    ensures rc == -1 && !Save.Valid(Save.At(env.Copies(), 1 - loaded.current)) ==>
      Save.Init(Save.Incremental, env.Copies(), standard) == loaded
    ensures Nand.NoFault(faults0) && Nand.NoFault(faults1) && Nand.NoFault(faults) ==> rc == 0
  {
    ghost var before := env.Copies();
    loaded := Save.Init(Save.Incremental, before, standard);
    rc := env.EnvInit(standard, faults0, faults1);
    if rc != 0 {
      return;
    }
    var a := Edited(env, vars, calls);
    rc := Keep(env, a[..], faults);
    Afterwards(standard, before, loaded, a[..], env.Copies(), rc);
  }

  /** The data that the calls make of those in memory. */
  method Edited(env: Nand.Environment, ghost vars: seq<seq<byte>>, calls: seq<Buffer.Call>) returns (a: array<byte>)
    requires env.Valid() && Holds(env.Loaded().data, vars) && CStrings(calls)
    ensures fresh(a) && |a[..]| == env.size - Nand.HEADER
    ensures Holds(a[..], Buffer.Run(env.size - Nand.HEADER, vars, calls))
  {
    a := DataOf(env);
    SetAll(a, vars, calls);
  }

  /** New data for the image, which is saved. */
  method Keep(env: Nand.Environment, data: seq<byte>, faults: Nand.Faults) returns (rc: int)
    requires env.Valid() && |data| == env.size - Nand.HEADER
    modifies env.image, env.zero.mem, env.one.mem
    ensures env.Valid() && (rc == 0 || rc == -1)
    ensures rc == 0 ==>
      env.Copies() == Save.Save(Save.Incremental, old(env.Copies()), old(env.Loaded()).(data := data), Save.Complete)
    ensures rc != 0 ==> var torn := Save.Torn(Save.At(env.Copies(), 1 - env.current));
      env.Copies() == Save.Save(Save.Incremental, old(env.Copies()), old(env.Loaded()).(data := data), torn)
    ensures Nand.NoFault(faults) ==> rc == 0
  {
    env.SetData(data);
    rc := env.SaveEnv(faults);
  }

  lemma Afterwards(standard: seq<byte>, before: Save.Store, loaded: Save.Session, data: seq<byte>, after: Save.Store, rc: int)
    requires Save.Recoverable(before) && loaded == Save.Init(Save.Incremental, before, standard)
    requires rc == 0 ==> after == Save.Save(Save.Incremental, before, loaded.(data := data), Save.Complete)
    requires rc != 0 ==> var torn := Save.Torn(Save.At(after, 1 - loaded.current));
      after == Save.Save(Save.Incremental, before, loaded.(data := data), torn)
    ensures rc == 0 && !Save.Wraps(Save.Incremental, loaded) ==> Save.Init(Save.Incremental, after, standard).data == data
    ensures rc == 0 && Save.Wraps(Save.Incremental, loaded) ==> Save.Init(Save.Incremental, after, standard) == loaded
    ensures rc != 0 && !Save.Valid(Save.At(after, 1 - loaded.current)) ==> Save.Init(Save.Incremental, after, standard) == loaded
  {
    Save.DurableExactly(Save.Incremental, standard, before, data);
    if rc != 0 && !Save.Valid(Save.At(after, 1 - loaded.current)) {
      Save.TornKeeps(Save.Incremental, standard, before, data, Save.At(after, 1 - loaded.current));
    }
  }

  /** A start and one fw_getenv: the place of the value in the image in memory, or -1. */
  method StartAndGet(env: Nand.Environment, ghost vars: seq<seq<byte>>, name: seq<byte>,
                     standard: seq<byte>, faults0: Nand.Faults, faults1: Nand.Faults) returns (rc: int, val: int)
    requires env.Valid() && |standard| <= env.size - Nand.HEADER && Buffer.CString(name)
    requires Holds(Save.Init(Save.Incremental, env.Copies(), standard).data, vars)
    modifies env
    ensures env.Valid() && env.Copies() == old(env.Copies())
    ensures Nand.NoFault(faults0) && Nand.NoFault(faults1) ==> rc == 0
    ensures rc == 0 ==> (val == -1 <==> Buffer.Lookup(vars, Buffer.Key(name)) == None)
    ensures rc == 0 && val != -1 ==> ValueAt(env.image[..], val, Buffer.Lookup(vars, Buffer.Key(name)).value)
  {
    rc := env.EnvInit(standard, faults0, faults1);
    if rc != 0 {
      return rc, -1;
    }
    assert env.image[..][Nand.HEADER..] == env.Loaded().data;
    val := GetHere(env, vars, name);
  }

  /** The same on the first start, when neither copy passes its check: the variables are those of the
      default environment. */
  method FirstStartAndGet(env: Nand.Environment, ghost vars: seq<seq<byte>>, name: seq<byte>,
                          standard: seq<byte>, faults0: Nand.Faults, faults1: Nand.Faults) returns (rc: int, val: int)
    requires env.Valid() && |standard| <= env.size - Nand.HEADER && Buffer.CString(name) && Holds(standard, vars)
    requires !Save.Valid(env.Copies().zero) && !Save.Valid(env.Copies().one)
    modifies env
    ensures env.Valid() && env.Copies() == old(env.Copies())
    ensures Nand.NoFault(faults0) && Nand.NoFault(faults1) ==> rc == 0
    ensures rc == 0 ==> env.current == 0 && (val == -1 <==> Buffer.Lookup(vars, Buffer.Key(name)) == None)
    ensures rc == 0 && val != -1 ==> ValueAt(env.image[..], val, Buffer.Lookup(vars, Buffer.Key(name)).value)
  {
    rc := env.EnvInit(standard, faults0, faults1);
    if rc != 0 {
      return rc, -1;
    }
    HoldsInFront(standard, env.image[..][Nand.HEADER..], vars);
    val := GetHere(env, vars, name);
  }

  lemma HoldsInFront(front: seq<byte>, data: seq<byte>, vars: seq<seq<byte>>)
    requires Holds(front, vars) && |front| <= |data| && data[..|front|] == front
    ensures Holds(data, vars)
  {
    assert data[..|Buffer.Image(vars)|] == front[..|Buffer.Image(vars)|];
  }

  /** fw_getenv on the image in memory. */
  method GetHere(env: Nand.Environment, ghost vars: seq<seq<byte>>, name: seq<byte>) returns (val: int)
    requires env.Valid() && Holds(env.image[..][Nand.HEADER..], vars) && Buffer.CString(name)
    ensures val == -1 <==> Buffer.Lookup(vars, Buffer.Key(name)) == None
    ensures val != -1 ==> ValueAt(env.image[..], val, Buffer.Lookup(vars, Buffer.Key(name)).value)
  {
    var a := DataOf(env);
    val := Get(a, vars, name);
    if val != -1 {
      Shifted(env.image[..], a[..], val, Buffer.Lookup(vars, Buffer.Key(name)).value);
      val := val + Nand.HEADER;
    }
  }

  /** The bytes of a value, with their NUL. */
  ghost predicate ValueAt(s: seq<byte>, at: int, v: seq<byte>) {
    0 <= at && at + |v| < |s| && s[at..at + |v|] == v && s[at + |v|] == Buffer.NUL
  }

  lemma Shifted(image: seq<byte>, data: seq<byte>, at: int, v: seq<byte>)
    requires |image| >= Nand.HEADER && data == image[Nand.HEADER..] && ValueAt(data, at, v)
    ensures ValueAt(image, at + Nand.HEADER, v)
  {
    assert image[at + Nand.HEADER..at + Nand.HEADER + |v|] == data[at..at + |v|];
  }

  /** A successful set that was saved: the next start finds the stored value under the name, and under
      every other name what was there before. */
  lemma SetArrives(size: nat, vars: seq<seq<byte>>, name: seq<byte>, val: seq<byte>, k: seq<byte>, calls: seq<Buffer.Call>)
    requires Buffer.WellFormed(vars) && Buffer.CString(name) && Buffer.CString(val) && calls == [Buffer.Call(name, val)]
    requires Buffer.SetOutcome(size, vars, name, val) == Buffer.Done
    ensures Buffer.Lookup(Buffer.Run(size, vars, calls), k)
         == if k == Buffer.Key(name) then Some(Buffer.StoredValue(name, val)) else Buffer.Lookup(vars, k)
  {
    Buffer.SetRefinesMap(size, vars, name, val, k);
    assert calls[1..] == [];
    assert Buffer.Run(size, vars, calls) == Buffer.SetVars(size, vars, name, val);
  }
}
