/**
  The PGN/EPD writer (app/src/core/filesystem/file_writer.hpp): its running checksum is that of
  the whole file, across an initial content and any number of appends.
 */
module FileWriter {
  import opened Options
  import opened Gf2Division
  import opened Crc32

  class FileWriter {
    const calculateCrc: bool
    const table: array<bv32>
    var crc32: bv32
    /** What is on disk. */
    ghost var content: seq<bv8>
    /** How many leading bytes the checksum leaves out: those that could not be read back. */
    ghost var skipped: nat

    ghost predicate Valid()
      reads this, table
    {
      && IsTable(table[..])
      && skipped <= |content|
      && (calculateCrc ==> IsState(crc32, content[skipped..]))
    }

    /**
      `existing` is the file before opening; opening without append truncates it. `readable`
      says whether the file can then be opened for reading.
     */
    constructor (existing: seq<bv8>, append: bool, crc: bool, readable: bool, table: array<bv32>)
      requires IsTable(table[..])
      ensures Valid() && this.table == table && calculateCrc == crc
      ensures content == if append then existing else []
      ensures skipped == if readable then 0 else |content|
    {
      hide IsState, IsTable, BitSteps, MessageBits, Low;
      StateAtStart();
      calculateCrc := crc;
      this.table := table;
      crc32 := InitialCrc32();
      var onDisk := if append then existing else [];
      content := onDisk;
      skipped := if readable then 0 else |onDisk|;
      new;
      assert content[skipped..] == if readable then content else [];
      if crc {
        // A file that does not open also reads as empty.
        var isEmpty := !readable || onDisk == [];
        if !isEmpty {
          var c := CalculateCrc32(table, if readable then Some(onDisk) else None);
          crc32 := match c case Some(v) => !v case None => InitialCrc32();
        }
      }
    }

    method Write(data: seq<bv8>)
      requires Valid()
      modifies this
      ensures Valid() && content == old(content) + data && skipped == old(skipped)
    {
      hide IsState, IsTable, BitSteps, MessageBits, Low;
      if calculateCrc {
        var crc := IncrementalCrc32(table, crc32, data);
        StateExtends(content[skipped..], data, crc32, crc);
        crc32 := crc;
      }
      content := content + data;
      assert content[skipped..] == old(content[skipped..]) + data;
    }

    /** The checksum shown to the user is the one of everything in the file. */
    function GetCrc32(): (r: Option<bv32>)
      requires Valid()
      reads this, table
      ensures r.None? <==> !calculateCrc
      ensures r.Some? ==> IsCrc(r.value, content[skipped..])
    {
      if !calculateCrc then None
      else
        DoubleComplement(crc32);
        Some(FinalizeCrc32(crc32))
    }
  }

  lemma StateExtends(before: seq<bv8>, data: seq<bv8>, crc: bv32, after: bv32)
    requires IsState(crc, before) && Word(after) == BitSteps(Word(POLY), Word(crc), MessageBits(data))
    ensures IsState(after, before + data)
  {
    hide Low, BitSteps, MessageBits;
    MessageBitsConcat(before, data);
    BitStepsConcat(Word(POLY), Word(ONES), MessageBits(before), MessageBits(data));
  }

  /** Two ways of writing the same bytes, in whatever pieces, end in the same checksum. */
  lemma SameContentSameCrc(v: FileWriter, w: FileWriter)
    requires v.Valid() && w.Valid() && v.calculateCrc && w.calculateCrc
    requires v.skipped == w.skipped && v.content == w.content
    ensures v.GetCrc32() == w.GetCrc32()
  {
    CrcUnique(v.content[v.skipped..], v.GetCrc32().value, w.GetCrc32().value);
  }
}
