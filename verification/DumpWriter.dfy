/** Writer (internal/backup/format.go): appends records to the open gzip member and closes
    it at every checkpoint.  Its first failure is terminal. */
module DumpWriter {
  import opened Wrappers
  import opened DumpFormat
  import opened DumpScan
  import opened DumpFile

  datatype WriteError = DiskFailed | ShortPayload(name: string, wrote: nat, declared: int)

  /** What a run depends on and does not rule: the disk, the server, the operator.  fails(k)
      says whether the k-th thing it asks of them fails. */
  class World {
    const fails: nat -> bool
    var asked: nat

    constructor (fails: nat -> bool)
      ensures this.fails == fails && asked == 0
    {
      this.fails, asked := fails, 0;
    }

    /** Nothing has failed since `from`. */
    ghost predicate Smooth(from: nat)
      reads this
    {
      forall k :: from <= k < asked ==> !fails(k)
    }

    method Fails() returns (b: bool)
      modifies this
      ensures asked == old(asked) + 1 && b == fails(old(asked))
    {
      asked := asked + 1;
      return fails(asked - 1);
    }
  }

  class Writer {
    const g: Gzip
    const j: Json
    const world: World
    var file: Bytes               // what is on disk up to the last closed member
    var gz: Bytes                 // what the open member has been given to compress
    var err: Option<WriteError>
    ghost const base: Bytes       // what the file held when the Writer was made
    ghost var members: seq<seq<Record>>
    ghost var open: seq<Record>

    /** Until it fails, a Writer has appended whole members holding exactly its records. */
    ghost predicate Valid()
      reads this
    {
      && file == base + Pack(g, j, members)
      && Sound(members) && AllWellFormed(open)
      && (err.None? ==> gz == Encode(j, open))
    }

    constructor (g: Gzip, j: Json, file: Bytes, world: World)
      ensures Valid() && err.None? && members == [] && open == [] && gz == []
      ensures base == file && this.g == g && this.j == j && this.world == world
    {
      this.g, this.j, this.file, this.world := g, j, file, world;
      gz, err := [], None;
      base, members, open := file, [], [];
      new;
      assert file + [] == file;
    }

    /** Hands bytes to the compressor; the disk underneath may refuse at any time. */
    method Emit(b: Bytes)
      modifies this`gz, this`err, world
      ensures old(world.asked) <= world.asked
      ensures old(err).Some? ==> err == old(err) && gz == old(gz)
      ensures old(err).None? ==> err == if world.Smooth(old(world.asked)) then None else Some(DiskFailed)
      ensures err.None? ==> gz == old(gz) + b
      ensures err.Some? ==> gz == old(gz)
    {
      if err.Some? {
        return;
      }
      var failed := world.Fails();
      if failed {
        err := Some(DiskFailed);
        return;
      }
      gz := gz + b;
    }

    /** WriteHeader, WriteDoc, WriteFooter: one record line. */
    method WriteRecord(line: Line) returns (e: Option<WriteError>)
      requires Valid() && !line.Att? && WellFormed(Record(line, []))
      modifies this, world
      ensures Valid() && e == err && old(world.asked) <= world.asked
      ensures old(err).Some? ==> unchanged(this)
      ensures old(err).None? ==> (e.None? <==> world.Smooth(old(world.asked)))
      ensures file == old(file) && members == old(members)
      ensures if e.None? then open == old(open) + [Record(line, [])] else open == old(open) && gz == old(gz)
    {
      Emit(j.enc(line) + [NL]);
      if err.None? {
        EncodeAppend(j, open, [Record(line, [])]);
        open := open + [Record(line, [])];
      }
      return err;
    }

    /** WriteAttachment: the att line, then exactly the declared number of bytes, then a
        newline.  A source that ends early is a terminal error. */
    method WriteAttachment(line: Line, content: Bytes) returns (e: Option<WriteError>)
      requires Valid() && line.Att?
      modifies this, world
      ensures Valid() && e == err && old(world.asked) <= world.asked
      ensures old(err).Some? ==> unchanged(this)
      ensures file == old(file) && members == old(members)
      ensures old(err).None? ==> (e.None? <==> 0 <= line.length <= |content| && world.Smooth(old(world.asked)))
      ensures if e.None? then open == old(open) + [Record(line, content[..line.length])] else open == old(open)
      ensures old(gz) <= gz
      ensures line.length <= |content| && 0 <= line.length ==>
                gz <= old(gz) + EncodeOne(j, Record(line, content[..line.length]))
      ensures old(err).None? && e.Some? ==>
                e.value == DiskFailed || e.value == ShortPayload(line.name, Taken(line.length, |content|), line.length)
      ensures old(err).None? && (line.length < 0 || |content| < line.length) ==> e.Some?
    {
      if err.Some? {
        return err;
      }
      Emit(j.enc(line) + [NL]);
      var n := Taken(line.length, |content|); // io.LimitReader
      Emit(content[..n]);
      if err.Some? {
        return err;
      }
      if n != line.length {
        err := Some(ShortPayload(line.name, n, line.length));
        return err;
      }
      Emit([NL]);
      if err.None? {
        var rec := Record(line, content[..n]);
        EncodeAppend(j, open, [rec]);
        assert old(gz) + (j.enc(line) + [NL]) + content[..n] + [NL] == old(gz) + EncodeOne(j, rec);
        open := open + [rec];
      }
      return err;
    }

    /** Closes the current member: its bytes are now on disk to the last one. */
    method CloseMember() returns (e: Option<WriteError>)
      requires Valid()
      modifies this, world
      ensures Valid() && e == err && old(world.asked) <= world.asked
      ensures old(err).Some? ==> unchanged(this)
      ensures old(err).None? ==> (e.None? <==> world.Smooth(old(world.asked)))
      ensures if e.None?
              then members == old(members) + [old(open)] && open == []
              else members == old(members) && open == old(open) && file == old(file) && gz == old(gz)
    {
      if err.Some? {
        return err;
      }
      var failed := world.Fails();
      if failed {
        err := Some(DiskFailed);
        return err;
      }
      PackAppend(g, j, members, [open]);
      assert Pack(g, j, [open]) == g.pack(gz);
      assert file + g.pack(gz) == base + Pack(g, j, members + [open]);
      file, gz := file + g.pack(gz), [];
      members, open := members + [open], [];
      return None;
    }

    /** WriteCheckpoint: a checkpoint record always ends its member. */
    method WriteCheckpoint(seqno: string) returns (e: Option<WriteError>)
      requires Valid()
      modifies this, world
      ensures Valid() && e == err && old(world.asked) <= world.asked
      ensures old(err).Some? ==> unchanged(this)
      ensures old(err).None? ==> (e.None? <==> world.Smooth(old(world.asked)))
      ensures if e.None?
              then members == old(members) + [old(open) + [Record(Checkpoint(seqno), [])]] && open == []
              else members == old(members) && file == old(file) && old(open) <= open <= old(open) + [Record(Checkpoint(seqno), [])]
      ensures e.Some? ==> gz == old(gz) || gz == Encode(j, open)
    {
      e := WriteRecord(Checkpoint(seqno));
      if e.Some? {
        return;
      }
      e := CloseMember();
    }

    /** What a Writer has closed is read back, members and all, as exactly its records,
        behind those of the members it was made to append to. */
    lemma ReadsBack(before: seq<seq<Record>>)
      requires Valid() && base == Pack(g, j, before) && Sound(before) && g.Valid() && j.Valid()
      ensures ReadAll(g, j, file) == Decoded(Flat(before) + Flat(members), Clean)
    {
      PackAppend(g, j, before, members);
      FlatAppend(before, members);
      ReadPack(g, j, before + members);
    }
  }
}
