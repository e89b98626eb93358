/** File descriptors as the servers see them: a stream whose reads and writes move an arbitrary
    positive number of elements, and the two helpers of src/websocket.h that hide this. */
module Streams {

  ghost predicate IsSuffix<T>(s: seq<T>, whole: seq<T>) {
    |s| <= |whole| && s == whole[|whole| - |s|..]
  }

  lemma DropIsSuffix<T>(s: seq<T>, k: nat)
    requires k <= |s|
    ensures IsSuffix(s[k..], s)
  {
  }

  lemma SuffixTwice<T>(a: seq<T>, b: seq<T>, c: seq<T>)
    requires IsSuffix(a, b) && IsSuffix(b, c)
    ensures IsSuffix(a, c) && |a| <= |b| <= |c|
  {
  }

  lemma SliceIs<T>(b: array<T>, off: nat, data: seq<T>)
    requires off + |data| <= b.Length && forall j :: 0 <= j < |data| ==> b[off + j] == data[j]
    ensures b[off..off + |data|] == data
  {
  }

  lemma BufferGrows<T>(b: array<T>, off: nat, n: nat, m: nat)
    requires off + n + m <= b.Length
    ensures b[off..off + n + m] == b[off..off + n] + b[off + n..off + n + m]
  {
  }

  lemma DropTwice<T>(s: seq<T>, n: nat, m: nat)
    requires n + m <= |s|
    ensures s[n..][m..] == s[n + m..] && s[..n + m] == s[..n] + s[n..][..m]
  {
  }

  class Stream<T(0)> {
    /** Whether the system calls only ever fail on a closed descriptor. */
    const reliable: bool
    /** Whether the descriptor is still held, that is, not -1. */
    var open: bool
    /** Everything the peer has sent or will send before closing, less what was read. */
    var input: seq<T>
    /** Everything written so far. */
    var output: seq<T>

    constructor (reliable: bool, input: seq<T>)
      ensures this.reliable == reliable && open && this.input == input && output == []
    {
      this.reliable, open, this.input, output := reliable, true, input, [];
    }

    /** read(2): some of what there is, 0 at the end of the stream, -1 on error. */
    method Read(buffer: array<T>, off: nat, len: nat) returns (n: int)
      requires off + len <= buffer.Length
      modifies this`input, buffer
      ensures n <= len && n <= |old(input)|
      ensures 0 < n ==> input == old(input)[n..] && buffer[off..off + n] == old(input)[..n]
      ensures n <= 0 ==> input == old(input)
      ensures n == 0 ==> len == 0 || old(input) == []
      ensures forall j :: 0 <= j < off || (off + n <= j && off <= j < buffer.Length) ==> buffer[j] == old(buffer[j])
      ensures open && reliable ==> 0 <= n && (n == 0 <==> len == 0 || old(input) == [])
      ensures !open ==> n < 0
    {
      if !open {
        return -1;
      }
      if !reliable {
        if * {
          return -1;
        }
      }
      if len == 0 || input == [] {
        return 0;
      }
      n :| 0 < n <= len && n <= |input|;
      ghost var before := buffer[..];
      var i := 0;
      while i < n
        invariant 0 <= i <= n
        invariant input == old(input)
        invariant forall j :: 0 <= j < i ==> buffer[off + j] == input[j]
        invariant forall j :: 0 <= j < off || off + i <= j < buffer.Length ==> buffer[j] == before[j]
      {
        buffer[off + i] := input[i];
        i := i + 1;
      }
      SliceIs(buffer, off, input[..n]);
      input := input[n..];
    }

    /** write(2): takes some of the data, or fails. */
    method Write(buffer: array<T>, off: nat, len: nat) returns (n: int)
      requires off + len <= buffer.Length
      modifies this`output
      ensures n <= len
      ensures 0 < n ==> output == old(output) + buffer[off..off + n]
      ensures n <= 0 ==> output == old(output)
      ensures open && reliable && 0 < len ==> 0 < n
      ensures !open ==> n < 0
    {
      if !open {
        return -1;
      }
      if !reliable {
        if * {
          return -1;
        }
      }
      if len == 0 {
        return 0;
      }
      n :| 0 < n <= len;
      output := output + buffer[off..off + n];
    }

    method Close()
      modifies this`open
      ensures !open
    {
      open := false;
    }
  }

  /** Reads exactly `size` elements, no matter how many reads it takes. */
  method BlockRead<T(0)>(s: Stream<T>, buffer: array<T>, off: nat, size: nat) returns (tot: int)
    requires off + size <= buffer.Length
    modifies s`input, buffer
    ensures tot == size || tot < 0
    ensures tot == size ==> size <= |old(s.input)| && s.input == old(s.input)[size..]
                            && buffer[off..off + size] == old(s.input)[..size]
    ensures IsSuffix(s.input, old(s.input))
    ensures forall j :: 0 <= j < off || off + size <= j < buffer.Length ==> buffer[j] == old(buffer[j])
    ensures s.open && s.reliable && size <= |old(s.input)| ==> tot == size
  {
    tot := 0;
    while tot < size
      invariant 0 <= tot <= size && tot <= |old(s.input)|
      invariant s.input == old(s.input)[tot..]
      invariant buffer[off..off + tot] == old(s.input)[..tot]
      invariant forall j :: 0 <= j < off || off + size <= j < buffer.Length ==> buffer[j] == old(buffer[j])
    {
      var n := ReadOn(s, buffer, off, tot, size, old(s.input));
      if n <= 0 {
        return if n == 0 then -1 else n;
      }
      tot := tot + n;
    }
  }

  /** One read of the loop, behind what has been read before. */
  method ReadOn<T(0)>(s: Stream<T>, buffer: array<T>, off: nat, tot: nat, size: nat, ghost input: seq<T>)
    returns (n: int)
    requires tot < size && off + size <= buffer.Length && tot <= |input|
    requires s.input == input[tot..] && buffer[off..off + tot] == input[..tot]
    modifies s`input, buffer
    ensures n <= 0 ==> s.input == input[tot..]
    ensures 0 < n ==> tot + n <= size && tot + n <= |input| && s.input == input[tot + n..]
                      && buffer[off..off + tot + n] == input[..tot + n]
    ensures forall j :: 0 <= j < off || off + size <= j < buffer.Length ==> buffer[j] == old(buffer[j])
    ensures s.open && s.reliable && size <= |input| ==> 0 < n
  {
    ghost var before := buffer[..];
    n := s.Read(buffer, off + tot, size - tot);
    if 0 < n {
      assert buffer[off..off + tot] == before[off..off + tot];
      BufferGrows(buffer, off, tot, n);
      DropTwice(input, tot, n);
    }
  }

  /** Writes exactly `size` elements, no matter how many writes it takes. */
  method BlockWrite<T(0)>(s: Stream<T>, buffer: array<T>, off: nat, size: nat) returns (tot: int)
    requires off + size <= buffer.Length
    modifies s`output
    ensures tot == size || tot < 0
    ensures tot == size ==> s.output == old(s.output) + buffer[off..off + size]
    ensures old(s.output) <= s.output <= old(s.output) + buffer[off..off + size]
    ensures s.open && s.reliable ==> tot == size
  {
    tot := 0;
    while tot < size
      invariant 0 <= tot <= size
      invariant s.output == old(s.output) + buffer[off..off + tot]
    {
      var n := s.Write(buffer, off + tot, size - tot);
      if n < 0 {
        return n;
      }
      if n == 0 {
        return -1;
      }
      BufferGrows(buffer, off, tot, n);
      tot := tot + n;
    }
  }
}
