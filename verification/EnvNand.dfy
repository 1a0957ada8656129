/** The save protocol of env/fw_env.c on two NAND devices: env_init and fw_saveenv over the block
    layer, shown to take exactly the steps of EnvSave. */
module EnvNand {
  import opened Register
  import Crc32
  import NandStore
  import EnvSave

  const HEADER := 5

  /** The check word in memory, low byte first as the processor stores it. */
  function Word(b0: byte, b1: byte, b2: byte, b3: byte): bv32 {
    (b0 as bv32) | ((b1 as bv32) << 8) | ((b2 as bv32) << 16) | ((b3 as bv32) << 24)
  }

  function ByteOf(c: bv32, k: nat): byte
    requires k < 4
  {
    if k == 0 then (c & 0xff) as byte
    else if k == 1 then ((c >> 8) & 0xff) as byte
    else if k == 2 then ((c >> 16) & 0xff) as byte
    else (c >> 24) as byte
  }

  lemma WordOfBytes(c: bv32)
    ensures Word(ByteOf(c, 0), ByteOf(c, 1), ByteOf(c, 2), ByteOf(c, 3)) == c
  {
  }

  /** The image of a copy: check word, flag, data. */
  function Parse(image: seq<byte>): EnvSave.Copy
    requires |image| >= HEADER
  {
    EnvSave.Copy(Word(image[0], image[1], image[2], image[3]), image[4] as int, image[HEADER..])
  }

  /** The check word is stored low byte first, the flag behind it. */
  lemma ImageLayout(image: seq<byte>)
    requires |image| >= 5
    ensures Parse(image).crc & 0xff == image[0] as bv32 && (Parse(image).crc >> 8) & 0xff == image[1] as bv32
    ensures (Parse(image).crc >> 16) & 0xff == image[2] as bv32 && Parse(image).crc >> 24 == image[3] as bv32
    ensures Parse(image).flag == image[4] as int && Parse(image).data == image[5..]
  {
    WordParts(image[0], image[1], image[2], image[3]);
  }

  lemma WordParts(b0: byte, b1: byte, b2: byte, b3: byte)
    ensures Word(b0, b1, b2, b3) & 0xff == b0 as bv32 && (Word(b0, b1, b2, b3) >> 8) & 0xff == b1 as bv32
    ensures (Word(b0, b1, b2, b3) >> 16) & 0xff == b2 as bv32 && Word(b0, b1, b2, b3) >> 24 == b3 as bv32
  {
  }

  lemma NextFlagByte(b: byte)
    ensures (b + 1) as int == (b as int + 1) % 256
  {
  }

  /** What a read of the environment from a device finds; it depends on the length of the stream
      alone whether it finds anything. */
  ghost predicate Readable(c: NandStore.Chip, m: seq<byte>, size: nat) {
    NandStore.Memory(c, m) && NandStore.ReadResult(c, m, c.devOffset, size).Some?
  }

  function Found(c: NandStore.Chip, m: seq<byte>, size: nat): (r: seq<byte>)
    requires Readable(c, m, size)
    ensures |r| == size
  {
    NandStore.ReadResult(c, m, c.devOffset, size).value
  }

  lemma StaysReadable(c: NandStore.Chip, m: seq<byte>, m': seq<byte>, size: nat)
    requires Readable(c, m, size) && NandStore.Memory(c, m')
    ensures Readable(c, m', size)
  {
    NandStore.StreamIsWhole(c, m, c.BlockAt(c.devOffset), c.TopBlock());
    NandStore.StreamIsWhole(c, m', c.BlockAt(c.devOffset), c.TopBlock());
  }

  lemma FoundAsWritten(c: NandStore.Chip, m: seq<byte>, m': seq<byte>, image: seq<byte>)
    requires NandStore.Memory(c, m) && NandStore.Memory(c, m')
    requires NandStore.Written(c, m, m', c.devOffset, image)
    ensures Readable(c, m', |image|) && Found(c, m', |image|) == image
  {
    NandStore.ReadAfterWrite(c, m, m', c.devOffset, image, 0, 0);
  }

  /** What goes wrong during one call, on either device. */
  datatype Faults = Faults(reading: nat -> NandStore.Fault, writing: nat -> NandStore.Fault)

  ghost predicate NoFault(f: Faults) {
    NandStore.AllWork(f.reading) && NandStore.AllWork(f.writing)
  }

  /** The environment of a program: the copy in memory and the device it was taken from. */
  class Environment {
    const zero: NandStore.Device
    const one: NandStore.Device
    const size: nat
    var current: EnvSave.Dev
    var image: array<byte>

    ghost predicate Valid()
      reads this, image, zero.mem, one.mem
    {
      && zero.mem != one.mem && image != zero.mem && image != one.mem
      && image.Length == size >= HEADER
      && Readable(zero.chip, zero.mem[..], size) && Readable(one.chip, one.mem[..], size)
    }

    /** The two copies as they stand on the devices. */
    ghost function Copies(): EnvSave.Store
      requires Valid()
      reads this, image, zero.mem, one.mem
    {
      EnvSave.Store(Parse(Found(zero.chip, zero.mem[..], size)), Parse(Found(one.chip, one.mem[..], size)))
    }

    /** The copy in memory, as the protocol sees it. */
    ghost function Loaded(): EnvSave.Session
      requires Valid()
      reads this, image, zero.mem, one.mem
    {
      EnvSave.Session(current, image[4] as int, image[HEADER..])
    }

    constructor (zero: NandStore.Device, one: NandStore.Device, size: nat)
      requires zero.mem != one.mem && size >= HEADER
      requires Readable(zero.chip, zero.mem[..], size) && Readable(one.chip, one.mem[..], size)
      ensures Valid() && this.zero == zero && this.one == one && this.size == size
    {
      this.zero, this.one, this.size := zero, one, size;
      current := 0;
      image := new byte[size];
    }

    function Device(d: EnvSave.Dev): NandStore.Device {
      if d == 0 then zero else one
    }

    /** crc32 over the data of an image, compared with its check word. */
    method Check(a: array<byte>) returns (ok: bool)
      requires a.Length >= HEADER
      ensures ok == EnvSave.Valid(Parse(a[..]))
    {
      var crc := Crc32.Calc(0, a, HEADER, a.Length - HEADER);
      assert a[HEADER..a.Length] == a[..][HEADER..];
      ok := crc == Word(a[0], a[1], a[2], a[3]);
    }

    /** flash_read of one device. */
    method Read(d: EnvSave.Dev, faults: Faults) returns (a: array?<byte>)
      requires Valid()
      ensures NoFault(faults) ==> a != null
      ensures a != null ==> fresh(a) && a[..] == Found(Device(d).chip, Device(d).mem[..], size)
    {
      a := new byte[size];
      var rc := Device(d).ReadBuf(a, size, Device(d).chip.devOffset, faults.reading);
      if rc != size {
        return null;
      }
      assert a[..size] == a[..];
    }

    /** The choice between two good images, by their flags. */
    method ByFlags(flag0: EnvSave.Flag, flag1: EnvSave.Flag) returns (d: EnvSave.Dev)
      ensures d == EnvSave.Newer(EnvSave.Incremental, flag0, flag1)
    {
      if (flag0 == 255 && flag1 == 0) || flag1 > flag0 {
        d := 1;
      } else if (flag1 == 255 && flag0 == 0) || flag0 > flag1 {
        d := 0;
      } else {
        d := 0;
      }
    }

    /** The choice between the two images. */
    method Choose(addr0: array<byte>, addr1: array<byte>) returns (d: EnvSave.Dev, good: bool)
      requires addr0.Length >= HEADER && addr1.Length >= HEADER
      ensures d == EnvSave.Chosen(EnvSave.Incremental, EnvSave.Store(Parse(addr0[..]), Parse(addr1[..])))
      ensures good == EnvSave.Recoverable(EnvSave.Store(Parse(addr0[..]), Parse(addr1[..])))
    {
      ghost var c0, c1 := Parse(addr0[..]), Parse(addr1[..]);
      var ok0 := Check(addr0);
      var flag0 := addr0[4] as int;
      var ok1 := Check(addr1);
      var flag1 := addr1[4] as int;
      assert flag0 == c0.flag && flag1 == c1.flag;
      good := ok0 || ok1;
      if ok0 && !ok1 {
        d := 0;
      } else if !ok0 && ok1 {
        d := 1;
      } else if !ok0 && !ok1 {
        d := 0;
      } else {
        d := ByFlags(flag0, flag1);
      }
    }

    /** The default data over the front of the data of an image. */
    method Default(a: array<byte>, standard: seq<byte>)
      requires a.Length >= HEADER + |standard|
      modifies a
      ensures a[HEADER..] == EnvSave.Defaulted(old(a[HEADER..]), standard) && a[4] == old(a[4])
      ensures a[..HEADER] == old(a[..HEADER]) && a[HEADER..HEADER + |standard|] == standard
      ensures a[HEADER + |standard|..] == old(a[HEADER + |standard|..])
    {
      forall i | 0 <= i < |standard| {
        a[HEADER + i] := standard[i];
      }
    }

    /** env_init. */
    method EnvInit(standard: seq<byte>, faults0: Faults, faults1: Faults) returns (rc: int)
      requires Valid() && |standard| <= size - HEADER
      modifies this
      ensures Valid()
      ensures (rc == 0 || rc == -1) && Copies() == old(Copies())
      ensures rc == 0 ==> fresh(image) && Loaded() == EnvSave.Init(EnvSave.Incremental, Copies(), standard)
      // with a good copy the image is a good copy, as it stands on its device
      ensures rc == 0 && (EnvSave.Valid(Copies().zero) || EnvSave.Valid(Copies().one)) ==>
        EnvSave.Valid(Parse(image[..])) && image[..] == Found(Device(current).chip, Device(current).mem[..], size)
      // without one it is that of device 0 with the default data over its front
      ensures rc == 0 && !EnvSave.Valid(Copies().zero) && !EnvSave.Valid(Copies().one) ==>
        var read, n := Found(zero.chip, zero.mem[..], size), HEADER + |standard|;
        current == 0 && image[..HEADER] == read[..HEADER] && image[HEADER..n] == standard && image[n..] == read[n..]
      ensures NoFault(faults0) && NoFault(faults1) ==> rc == 0
    {
      current := 0;
      var addr0 := Read(0, faults0);
      if addr0 == null {
        return -1;
      }
      current := 1;
      var addr1 := Read(1, faults1);
      if addr1 == null {
        return -1;
      }
      var good;
      current, good := Choose(addr0, addr1);
      ghost var read := addr0[..];
      if !good {
        Default(addr0, standard);
        assert addr0[HEADER + |standard|..] == read[HEADER + |standard|..];
      }
      image := if current == 0 then addr0 else addr1;
      rc := 0;
    }

    static method PutWord(a: array<byte>, c: bv32)
      requires a.Length >= HEADER
      modifies a
      ensures Word(a[0], a[1], a[2], a[3]) == c && forall i :: 4 <= i < a.Length ==> a[i] == old(a[i])
    {
      WordOfBytes(c);
      a[0], a[1], a[2], a[3] := ByteOf(c, 0), ByteOf(c, 1), ByteOf(c, 2), ByteOf(c, 3);
    }

    /** The check word and the flag of the image are brought up to date. */
    method Stamp()
      requires Valid()
      modifies image
      ensures Parse(image[..]) == EnvSave.NewCopy(EnvSave.Incremental, old(Loaded()))
    {
      var crc := Crc32.Calc(0, image, HEADER, size - HEADER);
      ghost var data := image[HEADER..];
      assert image[HEADER..size] == data;
      NextFlagByte(image[4]);
      PutWord(image, crc);
      image[4] := image[4] + 1;
      assert image[..][HEADER..] == data;
    }

    /** flash_write: the image over the environment of a device. */
    method Write(d: NandStore.Device, faults: Faults) returns (rc: int)
      requires image != d.mem && image.Length == size > 0 && Readable(d.chip, d.mem[..], size)
      modifies d.mem
      ensures Readable(d.chip, d.mem[..], size)
      ensures rc >= 0 ==> Found(d.chip, d.mem[..], size) == image[..]
      ensures NoFault(faults) ==> rc >= 0
    {
      ghost var m, stamped := d.mem[..], image[..];
      assert NandStore.ReadResult(d.chip, m, d.chip.devOffset, size).Some?;
      assert image[..size] == stamped;
      ghost var reached;
      rc, reached := d.WriteBuf(image, size, d.chip.devOffset, faults.reading, faults.writing);
      StaysReadable(d.chip, m, d.mem[..], size);
      if rc >= 0 {
        FoundAsWritten(d.chip, m, d.mem[..], stamped);
      }
    }

    /** fw_saveenv: the image goes to the device it was not taken from. A failed write is a torn one. */
    method SaveEnv(faults: Faults) returns (rc: int)
      requires Valid()
      modifies image, Device(1 - current).mem
      ensures Valid() && (rc == 0 || rc == -1)
      ensures Loaded() == old(Loaded()).(flag := EnvSave.NextFlag(EnvSave.Incremental, old(Loaded()).flag))
      ensures rc == 0 ==> Copies() == EnvSave.Save(EnvSave.Incremental, old(Copies()), old(Loaded()), EnvSave.Complete)
      ensures rc == -1 ==>
        Copies() == EnvSave.Save(EnvSave.Incremental, old(Copies()), old(Loaded()), EnvSave.Torn(EnvSave.At(Copies(), 1 - current)))
      ensures NoFault(faults) ==> rc == 0
    {
      Stamp();
      var written := Write(Device(1 - current), faults);
      rc := if written < 0 then -1 else 0;
    }

    /** New data in the image. */
    method SetData(data: seq<byte>)
      requires Valid() && |data| == size - HEADER
      modifies image
      ensures Valid() && Copies() == old(Copies()) && Loaded() == old(Loaded()).(data := data)
    {
      ghost var was := image[HEADER..];
      Default(image, data);
      assert EnvSave.Defaulted(was, data) == data;
    }

    /** A program that starts, changes the data and saves: the next start loads the new data if and
        only if the flag does not wrap on device 0. When the save fails with a torn copy that does not
        pass its check, the next start loads what this one loaded. */
    method Update(standard: seq<byte>, data: seq<byte>, faults0: Faults, faults1: Faults, faults: Faults)
      returns (rc: int, ghost loaded: EnvSave.Session)
      requires Valid() && |standard| <= size - HEADER && |data| == size - HEADER
      requires EnvSave.Recoverable(Copies())
      modifies this, zero.mem, one.mem
      ensures Valid() && (rc == 0 || rc == -1)
      ensures loaded == EnvSave.Init(EnvSave.Incremental, old(Copies()), standard)
      ensures rc == 0 ==>
        (EnvSave.Init(EnvSave.Incremental, Copies(), standard).data == data
         <==> data == loaded.data || !EnvSave.Wraps(EnvSave.Incremental, loaded))
      ensures rc == -1 && !EnvSave.Valid(EnvSave.At(Copies(), 1 - loaded.current)) ==>
        EnvSave.Init(EnvSave.Incremental, Copies(), standard) == loaded
      ensures NoFault(faults0) && NoFault(faults1) && NoFault(faults) ==> rc == 0
    {
      ghost var before := Copies();
      loaded := EnvSave.Init(EnvSave.Incremental, before, standard);
      rc := EnvInit(standard, faults0, faults1);
      if rc != 0 {
        return;
      }
      SetData(data);
      rc := SaveEnv(faults);
      if rc == 0 {
        EnvSave.DurableExactly(EnvSave.Incremental, standard, before, data);
      } else if !EnvSave.Valid(EnvSave.At(Copies(), 1 - current)) {
        EnvSave.TornKeeps(EnvSave.Incremental, standard, before, data, EnvSave.At(Copies(), 1 - current));
      }
    }
  }
}
