/** Reading a stream of byte chunks as if it were one sequence of bytes. */
module ByteStream {
  import opened Wrappers

  datatype Truncated = Truncated

  const CHUNK: nat := 0x10_0000

  function Flat(chunks: seq<seq<byte>>): seq<byte> {
    if chunks == [] then [] else chunks[0] + Flat(chunks[1..])
  }

  /** A file open for writing. */
  class Sink {
    var data: seq<byte>

    constructor ()
      ensures data == []
    {
      data := [];
    }

    method Write(bytes: seq<byte>)
      modifies this
      ensures data == old(data) + bytes
    {
      data := data + bytes;
    }
  }

  class Stream {
    var chunks: seq<seq<byte>>
    var buf: seq<byte>

    /** What is still to be read. */
    ghost function Rest(): seq<byte>
      reads this
    {
      buf + Flat(chunks)
    }

    constructor (chunks: seq<seq<byte>>)
      ensures Rest() == Flat(chunks)
    {
      this.chunks, buf := chunks, [];
    }

    /** The next chunk goes to the end of the buffer; none is left if the iterator is at its end. */
    method Pull() returns (more: bool)
      modifies this
      ensures more == (old(chunks) != [])
      ensures more ==> |chunks| < |old(chunks)| && |buf| >= |old(buf)|
      ensures Rest() == old(Rest()) && (!more ==> buf == old(buf) && chunks == [])
    {
      more := chunks != [];
      if more {
        buf, chunks := buf + chunks[0], chunks[1..];
      }
    }

    /** The next n bytes, or an error if there are fewer. */
    method Read(n: nat) returns (r: Result<seq<byte>, Truncated>)
      modifies this
      ensures |old(Rest())| >= n ==> r == Ok(old(Rest())[..n]) && Rest() == old(Rest())[n..]
      ensures |old(Rest())| < n ==> r.Err? && Rest() == old(Rest())
    {
      while |buf| < n
        invariant Rest() == old(Rest())
        decreases |chunks|
      {
        var more := Pull();
        if !more {
          return Err(Truncated);
        }
      }
      assert Rest()[..n] == buf[..n] && Rest()[n..] == buf[n..] + Flat(chunks);
      r := Ok(buf[..n]);
      buf := buf[n..];
    }

    /** One round of copying: at most n bytes from the buffer, refilled once if it was empty. */
    method Piece(n: nat, out: Sink?) returns (taken: nat, more: bool)
      requires n > 0
      modifies this, out
      ensures taken <= n && taken <= |old(Rest())| && Rest() == old(Rest())[taken..]
      ensures out != null ==> out.data == old(out.data) + old(Rest())[..taken]
      ensures |chunks| <= |old(chunks)| && (more ==> taken > 0 || |chunks| < |old(chunks)|)
      ensures !more ==> old(Rest()) == [] && taken == 0
    {
      ghost var all := Rest();
      more, taken := true, 0;
      if buf == [] {
        more := Pull();
        if !more {
          assert all == [] && all[..0] == [];
          return;
        }
      }
      taken := Min(n, Min(|buf|, CHUNK));
      assert all[..taken] == buf[..taken] && all[taken..] == buf[taken..] + Flat(chunks);
      if out != null {
        out.Write(buf[..taken]);
      }
      buf := buf[taken..];
    }

    /** Hands the next n bytes on piece by piece; on a stream that is too short, all there is. */
    method Copy(n0: nat, out: Sink?) returns (r: Result<(), Truncated>)
      modifies this, out
      ensures |old(Rest())| >= n0 ==> r.Ok? && Rest() == old(Rest())[n0..]
      ensures |old(Rest())| < n0 ==> r.Err? && Rest() == []
      ensures out != null ==> out.data == old(out.data) + old(Rest())[..Min(n0, |old(Rest())|)]
    {
      hide Rest, Flat;
      var n := n0;
      ghost var all := Rest();
      ghost var done := 0;
      assert all[0..] == all && all[..0] == [];
      while n > 0
        invariant 0 <= n && done + n == n0 && done <= |all|
        invariant Rest() == all[done..]
        invariant out != null ==> out.data == old(out.data) + all[..done]
        decreases |chunks|, n
      {
        var taken, more := Piece(n, out);
        assert all[..done] + all[done..][..taken] == all[..done + taken];
        assert all[done..][taken..] == all[done + taken..];
        if !more {
          assert done == |all| && all[..done] == all;
          return Err(Truncated);
        }
        n := n - taken;
        done := done + taken;
      }
      return Ok(());
    }
  }
}
