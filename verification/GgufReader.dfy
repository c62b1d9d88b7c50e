/** The buffered reader of a GGUF header: a window over the file that refines direct indexing. */
module GgufReader {
  import opened Checked
  import opened Buffers

  const READER_BUFFER_BYTES: nat := 64 * 1024

  /** A source file, and the number of header bytes that may be read. */
  datatype Source = Source(bytes: seq<byte>, limit: nat) {
    predicate Valid() {
      |bytes| <= U64_MAX && limit <= U64_MAX
    }
  }

  /** Direct indexing, with the reader's checks. */
  function Take(s: Source, offset: nat, n: nat): Result<seq<byte>> {
    if offset + n > U64_MAX then Err(ResourceLimit)
    else if offset + n > s.limit then Err(ResourceLimit)
    else if offset + n > |s.bytes| then Err(InvalidFormat)
    else Ok(s.bytes[offset..offset + n])
  }

  class Reader {
    const source: Source
    var offset: nat
    const buffer: array<byte>
    var bufferStart: nat
    var bufferLen: nat

    ghost predicate Valid()
      reads this, buffer
    {
      source.Valid() && buffer.Length == READER_BUFFER_BYTES && bufferLen <= buffer.Length
      && bufferStart + bufferLen <= |source.bytes|
      && buffer[..bufferLen] == source.bytes[bufferStart..bufferStart + bufferLen]
      && offset <= |source.bytes|
    }

    constructor (source: Source)
      requires source.Valid()
      ensures Valid() && this.source == source && offset == 0 && fresh(buffer)
    {
      this.source := source;
      offset, bufferStart, bufferLen := 0, 0, 0;
      buffer := new byte[READER_BUFFER_BYTES](_ => 0);
    }

    /** Refills the window at the current offset. */
    method FillBuffer() returns (r: Result<()>)
      requires Valid()
      modifies this`bufferStart, this`bufferLen, buffer
      ensures Valid()
      ensures r.Ok? <==> offset < |source.bytes| && offset < source.limit
      ensures r.Ok? ==> bufferStart == offset && bufferLen > 0
    {
      var end := if |source.bytes| < source.limit then |source.bytes| else source.limit;
      if end <= offset {
        return Err(InvalidFormat);
      }
      var remaining := end - offset;
      var amount := if remaining < READER_BUFFER_BYTES then remaining else READER_BUFFER_BYTES;
      CopyFromSlice(source.bytes[offset..offset + amount], buffer, 0);
      bufferStart, bufferLen := offset, amount;
      return Ok(());
    }

    /** Copies what the window holds at the offset, at most the rest of the output. */
    method CopyWindow(output: array<byte>, done: nat) returns (amount: nat)
      requires Valid() && output != buffer && done < output.Length && done <= offset
      requires bufferStart <= offset < bufferStart + bufferLen
      requires output[..done] == source.bytes[offset - done..offset]
      modifies this`offset, output
      ensures Valid() && 0 < amount <= output.Length - done && offset == old(offset) + amount
      ensures output[..done + amount] == source.bytes[offset - (done + amount)..offset]
    {
      var relative := offset - bufferStart;
      var available := bufferLen - relative;
      amount := if available < output.Length - done then available else output.Length - done;
      WindowRange(buffer[..], source.bytes, bufferStart, bufferLen, relative, amount);
      JoinRanges(source.bytes, offset - done, done, amount);
      ghost var before, copied := output[..], buffer[relative..relative + amount];
      CopyFromSlice(buffer[relative..relative + amount], output, done);
      PrefixOfThree(before[..done], copied, before[done + amount..]);
      assert output[..done + amount] == output[..][..done + amount];
      offset := offset + amount;
    }

    /** Fills the output from the window, refilling it as often as needed. */
    method ReadInto(output: array<byte>) returns (r: Result<()>)
      requires Valid() && output != buffer && offset + output.Length <= |source.bytes|
      requires offset + output.Length <= source.limit
      modifies this, buffer, output
      ensures Valid() && r.Ok? && offset == old(offset) + output.Length
      ensures output[..] == source.bytes[old(offset)..old(offset) + output.Length]
    {
      ghost var start := offset;
      var done := 0;
      while done < output.Length
        invariant Valid() && 0 <= done <= output.Length && offset == start + done
        invariant output[..done] == source.bytes[start..offset]
        decreases output.Length - done
      {
        if offset < bufferStart || offset >= bufferStart + bufferLen {
          var _ :- FillBuffer();
        }
        var amount := CopyWindow(output, done);
        done := done + amount;
      }
      assert output[..done] == output[..];
      return Ok(());
    }

    /** A read of `n` bytes is direct indexing of the file. */
    method Read(n: nat) returns (r: Result<seq<byte>>)
      requires Valid()
      modifies this, buffer
      ensures Valid() && r == Take(source, old(offset), n)
      ensures offset == old(offset) + if r.Ok? then n else 0
    {
      if offset + n > U64_MAX {
        return Err(ResourceLimit);
      }
      if offset + n > source.limit {
        return Err(ResourceLimit);
      }
      if offset + n > |source.bytes| {
        return Err(InvalidFormat);
      }
      var bytes := new byte[n](_ => 0);
      var _ :- ReadInto(bytes);
      return Ok(bytes[..]);
    }
  }

  /** A range of the window is a range of the file. */
  lemma WindowRange(buffer: seq<byte>, file: seq<byte>, start: nat, len: nat, relative: nat, amount: nat)
    requires len <= |buffer| && start + len <= |file| && buffer[..len] == file[start..start + len]
    requires relative + amount <= len
    ensures buffer[relative..relative + amount] == file[start + relative..start + relative + amount]
  {
    SubSlice(buffer, 0, len, relative, amount);
    SubSlice(file, start, start + len, relative, amount);
  }

  lemma PrefixOfThree(a: seq<byte>, b: seq<byte>, c: seq<byte>)
    ensures (a + b + c)[..|a| + |b|] == a + b
  {
  }

  lemma JoinRanges(file: seq<byte>, start: nat, first: nat, second: nat)
    requires start + first + second <= |file|
    ensures file[start..start + first] + file[start + first..start + first + second] == file[start..start + first + second]
  {
  }
}
