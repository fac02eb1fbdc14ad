/** Files and binary input streams, reduced to what the sort engine relies on:
    a file's contents are a byte sequence, and an input stream over them is a
    cursor into that sequence with a "good" flag that a read past the end clears.
    The contents do not change while a stream reads them, so the functions below
    take them as a separate argument. */
module Streams {
  import opened Bytes

  /** Where an input stream stands: its read position and whether it is still good. */
  datatype Cursor = Cursor(pos: nat, good: bool)

  /** A stream freshly opened on a file. */
  const Start := Cursor(0, true)

  /** Whether a read (or skip) of n bytes from data `d` succeeds: the stream must be
      good and n bytes must remain. */
  predicate CanRead(d: seq<byte>, s: Cursor, n: nat) {
    s.good && s.pos + n <= |d|
  }

  /** The n bytes a successful read delivers. */
  function Peek(d: seq<byte>, s: Cursor, n: nat): (bs: seq<byte>)
    requires CanRead(d, s, n)
    ensures |bs| == n
  {
    d[s.pos..s.pos + n]
  }

  /** The stream after reading n bytes. A short read consumes what is left and clears
      `good`; a read on a stream that is not good changes nothing. */
  function Advance(d: seq<byte>, s: Cursor, n: nat): (t: Cursor)
    requires s.pos <= |d|
    ensures s.pos <= t.pos <= |d|
    ensures t.good <==> CanRead(d, s, n)
    ensures CanRead(d, s, n) ==> t.pos == s.pos + n
  {
    if CanRead(d, s, n) then s.(pos := s.pos + n)
    else if s.good then Cursor(|d|, false)
    else s
  }

  /** Two reads in a row succeed exactly when one read of both lengths does, and
      leave the stream where that read would. */
  lemma {:induction false} AdvanceTwice(d: seq<byte>, s: Cursor, a: nat, b: nat)
    requires s.pos <= |d|
    ensures Advance(d, Advance(d, s, a), b) == Advance(d, s, a + b)
    ensures CanRead(d, s, a) && CanRead(d, Advance(d, s, a), b) <==> CanRead(d, s, a + b)
  {
  }

  /** `seekg(n, std::ios::cur)` on a file stream: on a good stream it succeeds even past
      the end of the file, as the underlying `lseek` does, and only the next read
      fails; the cursor is kept at the end, where every later read fails alike. */
  function Seek(d: seq<byte>, s: Cursor, n: nat): (t: Cursor)
    requires s.pos <= |d|
    ensures t.good == s.good && s.pos <= t.pos <= |d|
  {
    if !s.good then s
    else if s.pos + n <= |d| then s.(pos := s.pos + n)
    else s.(pos := |d|)
  }

  /** An `std::ifstream` opened in binary mode. */
  class InputStream {
    const data: seq<byte>
    var pos: nat
    var good: bool

    ghost predicate Valid()
      reads this
    {
      pos <= |data|
    }

    function State(): Cursor
      reads this
    {
      Cursor(pos, good)
    }

    constructor (contents: seq<byte>)
      ensures Valid() && data == contents && State() == Start
    {
      data := contents;
      pos := 0;
      good := true;
    }

    /** `in.read(buf, n)` followed by the test of the stream. */
    method Read(n: nat) returns (ok: bool, bytes: seq<byte>)
      requires Valid()
      modifies this
      ensures Valid()
      ensures ok == CanRead(data, old(State()), n)
      ensures ok ==> bytes == Peek(data, old(State()), n)
      ensures State() == Advance(data, old(State()), n)
    {
      if good && pos + n <= |data| {
        bytes := data[pos..pos + n];
        pos := pos + n;
        ok := true;
      } else {
        bytes := [];
        if good {
          pos := |data|;
          good := false;
        }
        ok := false;
      }
    }

    /** `in.seekg(n, std::ios::cur)`. */
    method Skip(n: nat)
      requires Valid()
      modifies this
      ensures Valid()
      ensures State() == Seek(data, old(State()), n)
    {
      if good {
        if pos + n <= |data| {
          pos := pos + n;
        } else {
          pos := |data|;
        }
      }
    }
  }

  /** A `std::vector<std::ifstream>` of binary input streams, one per file, each with
      its own cursor into contents that do not change while it reads them. */
  class InputStreams {
    const datas: seq<seq<byte>>
    var curs: seq<Cursor>

    ghost predicate Valid()
      reads this
    {
      |curs| == |datas| && forall i :: 0 <= i < |datas| ==> curs[i].pos <= |datas[i]|
    }

    /** The streams opened on files with the contents `contents`, in order. */
    constructor (contents: seq<seq<byte>>)
      ensures Valid() && datas == contents
      ensures |curs| == |contents| && forall i :: 0 <= i < |contents| ==> curs[i] == Start
    {
      datas := contents;
      curs := seq(|contents|, i => Start);
    }

    /** `inputs[i].read(buf, n)` followed by the test of that stream. */
    method Read(i: nat, n: nat) returns (ok: bool, bytes: seq<byte>)
      requires Valid() && i < |datas|
      modifies this
      ensures Valid()
      ensures ok == CanRead(datas[i], old(curs[i]), n)
      ensures ok ==> bytes == Peek(datas[i], old(curs[i]), n)
      ensures curs == old(curs)[i := Advance(datas[i], old(curs[i]), n)]
    {
      var s := curs[i];
      if s.good && s.pos + n <= |datas[i]| {
        bytes := datas[i][s.pos..s.pos + n];
        curs := curs[i := s.(pos := s.pos + n)];
        ok := true;
      } else {
        bytes := [];
        if s.good {
          curs := curs[i := Cursor(|datas[i]|, false)];
        }
        ok := false;
      }
    }
  }

  /** The directory tree the program reads and writes, as a map from path to contents. */
  class FileSystem {
    var files: map<string, seq<byte>>

    constructor (initial: map<string, seq<byte>>)
      ensures files == initial
    {
      files := initial;
    }

    /** Opening an `std::ofstream`: creates the file or truncates it to empty. */
    method Create(name: string)
      modifies this
      ensures files == old(files)[name := []]
    {
      files := files[name := []];
    }

    /** `out.write(bytes, |bytes|)` on a stream opened by `Create`. */
    method Append(name: string, bytes: seq<byte>)
      requires name in files
      modifies this
      ensures files == old(files)[name := old(files)[name] + bytes]
    {
      files := files[name := files[name] + bytes];
    }

    /** `std::filesystem::remove(name)`: a missing file is no error. */
    method Remove(name: string)
      modifies this
      ensures files == old(files) - {name}
    {
      files := files - {name};
    }
  }
}
