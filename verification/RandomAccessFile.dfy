/** Byte ranges on top of a page cache: reads and writes go page by page. */
module RandomAccessFiles {

  newtype byte = x: int | 0 <= x < 256

  const PAGE_SIZE := 4096

  class RandomAccessFile {
    // The pages as the cache hands them out; a page never written reads as zeros.
    var pages: map<int, seq<byte>>
    var pins: multiset<int>
    ghost var unmarked: set<int>

    ghost predicate Valid()
      reads this
    {
      && (forall n | n in pages :: |pages[n]| == PAGE_SIZE)
      && unmarked == {}
    }

    function Page(n: int): seq<byte>
      reads this`pages
    {
      if n in pages then pages[n] else seq(PAGE_SIZE, _ => 0)
    }

    /** The file as a flat array of bytes. */
    ghost function ByteAt(i: nat): byte
      requires Valid()
      reads this
    {
      Page(i / PAGE_SIZE)[i % PAGE_SIZE]
    }

    ghost function Range(position: nat, length: nat): (s: seq<byte>)
      requires Valid()
      reads this
      ensures |s| == length && forall i | 0 <= i < length :: s[i] == ByteAt(position + i)
    {
      seq(length, i requires 0 <= i && Valid() reads this => ByteAt(position + i))
    }

    constructor ()
      ensures Valid() && pins == multiset{} && forall i: nat :: ByteAt(i) == 0
    {
      pages, pins, unmarked := map[], multiset{}, {};
    }

    method ReadPage(n: int) returns (b: seq<byte>)
      modifies this`pins
      ensures pins == old(pins) + multiset{n} && b == Page(n)
    {
      pins := pins + multiset{n};
      b := Page(n);
    }

    method Store(n: int, b: seq<byte>)
      requires n in pins && |b| == PAGE_SIZE
      modifies this`pages, this`unmarked
      ensures pages == old(pages)[n := b] && unmarked == old(unmarked) + {n}
    {
      pages := pages[n := b];
      unmarked := unmarked + {n};
    }

    method WritePage(n: int)
      requires n in pins
      modifies this`unmarked
      ensures unmarked == old(unmarked) - {n}
    {
      unmarked := unmarked - {n};
    }

    method ReleasePage(n: int)
      requires n in pins && n !in unmarked
      modifies this`pins
      ensures pins == old(pins) - multiset{n}
    {
      pins := pins - multiset{n};
    }

    /** Copies `length` bytes of the file, from `position` on, to the start of `buffer`. */
    method Read(position: nat, length: nat, buffer: array<byte>)
      requires Valid() && length <= buffer.Length
      modifies this`pins, this`unmarked, buffer
      ensures Valid() && pins == old(pins)
      ensures buffer[..length] == Range(position, length)
      ensures buffer[length..] == old(buffer[length..])
    {
      if length == 0 {
        return;
      }
      var offset := 0;
      while offset < length
        invariant offset <= length && Valid() && pins == old(pins)
        invariant forall i | 0 <= i < offset :: buffer[i] == ByteAt(position + i)
        invariant buffer[length..] == old(buffer[length..])
      {
        var fileOffset := position + offset;
        var pageNumber := fileOffset / PAGE_SIZE;
        var pageOffset := fileOffset % PAGE_SIZE;
        var chunkSize := if length - offset < PAGE_SIZE - pageOffset then length - offset else PAGE_SIZE - pageOffset;
        ReadChunk(pageNumber, pageOffset, chunkSize, buffer, offset);
        offset := offset + chunkSize;
      }
    }

    /** One page of a read. */
    method ReadChunk(pageNumber: nat, pageOffset: nat, chunkSize: nat, buffer: array<byte>, offset: nat)
      requires Valid() && pageOffset + chunkSize <= PAGE_SIZE && offset + chunkSize <= buffer.Length
      modifies this`pins, this`unmarked, buffer
      ensures Valid() && pins == old(pins)
      ensures forall i | offset <= i < offset + chunkSize ::
                buffer[i] == ByteAt(pageNumber * PAGE_SIZE + pageOffset + (i - offset))
      ensures forall i | 0 <= i < buffer.Length && !(offset <= i < offset + chunkSize) :: buffer[i] == old(buffer[i])
    {
      var page := ReadPage(pageNumber);
      forall k | 0 <= k < chunkSize {
        buffer[offset + k] := page[pageOffset + k];
      }
      // the page is marked even though it was only read
      WritePage(pageNumber);
      ReleasePage(pageNumber);
      forall i | offset <= i < offset + chunkSize
        ensures buffer[i] == ByteAt(pageNumber * PAGE_SIZE + pageOffset + (i - offset))
      {
        assert buffer[i] == page[pageOffset + (i - offset)];
      }
    }

    /** Writes the first `length` bytes of `buffer` at `position`; nothing else changes. */
    method Write(position: nat, length: nat, buffer: seq<byte>)
      requires Valid() && length <= |buffer|
      modifies this
      ensures Valid() && pins == old(pins)
      ensures forall i: nat :: ByteAt(i) ==
                               if position <= i < position + length then buffer[i - position] else old(ByteAt(i))
    {
      if length == 0 {
        return;
      }
      var offset := 0;
      while offset < length
        invariant offset <= length && Valid() && pins == old(pins)
        invariant forall i: nat :: ByteAt(i) ==
                                   if position <= i < position + offset then buffer[i - position] else old(ByteAt(i))
      {
        var fileOffset := position + offset;
        var pageNumber := fileOffset / PAGE_SIZE;
        var pageOffset := fileOffset % PAGE_SIZE;
        var chunkSize := if length - offset < PAGE_SIZE - pageOffset then length - offset else PAGE_SIZE - pageOffset;
        WriteChunk(pageNumber, pageOffset, buffer[offset..offset + chunkSize]);
        offset := offset + chunkSize;
      }
    }

    /** One page of a write. */
    method WriteChunk(pageNumber: nat, pageOffset: nat, chunk: seq<byte>)
      requires Valid() && pageOffset + |chunk| <= PAGE_SIZE
      modifies this
      ensures Valid() && pins == old(pins)
      ensures forall i: nat :: ByteAt(i) == var k := i - (pageNumber * PAGE_SIZE + pageOffset);
                                            if 0 <= k < |chunk| then chunk[k] else old(ByteAt(i))
    {
      var page := ReadPage(pageNumber);
      PutChunk(pageNumber, pageOffset, page, chunk);
      WritePage(pageNumber);
      ReleasePage(pageNumber);
      assert unmarked == {};
    }

    /** Copies `chunk` into the pinned page, `pageOffset` bytes from its start. */
    method PutChunk(pageNumber: int, pageOffset: nat, page: seq<byte>, chunk: seq<byte>)
      requires Valid() && pageNumber in pins && page == Page(pageNumber)
      requires pageNumber >= 0 && pageOffset + |chunk| <= PAGE_SIZE
      modifies this`pages, this`unmarked
      ensures unmarked == {pageNumber} && forall n | n in pages :: |pages[n]| == PAGE_SIZE
      ensures forall i: nat :: Page(i / PAGE_SIZE)[i % PAGE_SIZE] ==
                               var k := i - (pageNumber * PAGE_SIZE + pageOffset);
                               if 0 <= k < |chunk| then chunk[k] else old(ByteAt(i))
    {
      Store(pageNumber, page[..pageOffset] + chunk + page[pageOffset + |chunk|..]);
      forall i: nat
        ensures Page(i / PAGE_SIZE)[i % PAGE_SIZE] ==
                var k := i - (pageNumber * PAGE_SIZE + pageOffset);
                if 0 <= k < |chunk| then chunk[k] else old(ByteAt(i))
      {
        if i / PAGE_SIZE == pageNumber {
          assert i == pageNumber * PAGE_SIZE + i % PAGE_SIZE;
        }
      }
    }
  }
}
