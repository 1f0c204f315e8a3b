/** The SDRAM staging buffer of the DMA transport: three 32-bit words per element. */
module StagingBuffer {
  import opened Bits
  import opened Wrappers
  import opened Elements

  /** A word as it lies in memory. */
  function Stored32(w: word): u32
  {
    WordRoundTrip(w);
    NumberOf(w)
  }

  ghost predicate WordsAt(w: seq<u32>, i: nat, control: u32, count: u32, value: u32)
  {
    3 * i + 2 < |w| && w[3 * i] == control && w[3 * i + 1] == count && w[3 * i + 2] == value
  }

  /** The words at position i are those of e. */
  ghost predicate HoldsAt(w: seq<u32>, i: nat, e: El)
  {
    WordsAt(w, i, Stored32(e.control), e.count, Stored32(e.value))
  }

  ghost predicate Holds(w: seq<u32>, s: seq<El>) { forall i :: 0 <= i < |s| ==> HoldsAt(w, i, s[i]) }

  /** A buffer can hold only one sequence of a given length. */
  lemma HeldIsUnique(w: seq<u32>, s: seq<El>, t: seq<El>)
    requires Holds(w, s) && Holds(w, t) && |s| == |t|
    ensures SameSequence(s, t)
  {
    forall i | 0 <= i < |s| ensures s[i].Same(t[i]) {
      assert HoldsAt(w, i, s[i]) && HoldsAt(w, i, t[i]);
      WordRoundTrip(s[i].control);
      WordRoundTrip(t[i].control);
      WordRoundTrip(s[i].value);
      WordRoundTrip(t[i].value);
    }
  }

  lemma WordsFit(i: nat, size: nat)
    requires 12 * i + 12 <= size
    ensures 3 * i + 2 < size / 4
  {
  }

  class Buffer {
    const words: array<u32>
    const maxSize: nat

    ghost predicate Valid() { words.Length == maxSize / 4 }

    constructor (size: nat)
      ensures Valid() && maxSize == size && fresh(words)
    {
      maxSize := size;
      words := new u32[size / 4];
    }

    /** `write_element`. */
    method WriteElement(i: nat, e: El) returns (ok: bool)
      requires Valid()
      modifies words
      ensures ok <==> 12 * (i + 1) <= maxSize
      ensures ok ==> HoldsAt(words[..], i, e)
      ensures forall k :: 0 <= k < words.Length && !(ok && 3 * i <= k < 3 * i + 3) ==> words[k] == old(words[k])
    {
      if 12 * i + 12 > maxSize { return false; }
      WordsFit(i, maxSize);
      WriteWords(i, Stored32(e.control), e.count, Stored32(e.value));
      return true;
    }

    method WriteWords(i: nat, control: u32, count: u32, value: u32)
      requires 3 * i + 2 < words.Length
      modifies words
      ensures WordsAt(words[..], i, control, count, value)
      ensures forall k :: 0 <= k < words.Length && !(3 * i <= k < 3 * i + 3) ==> words[k] == old(words[k])
    {
      words[3 * i] := control;
      words[3 * i + 1] := count;
      words[3 * i + 2] := value;
    }

    /** `prepare`: the byte count, or a failure exactly if the sequence does not fit. */
    method Prepare(s: seq<El>) returns (size: Result<nat>)
      requires Valid()
      modifies words
      ensures size == if 12 * |s| <= maxSize then Ok(12 * |s|) else Err
      ensures size.Ok? ==> Holds(words[..], s)
      ensures forall k :: 3 * |s| <= k < words.Length ==> words[k] == old(words[k])
    {
      for i := 0 to |s|
        invariant 12 * i <= maxSize && Holds(words[..], s[..i])
        invariant forall k :: 3 * i <= k < words.Length ==> words[k] == old(words[k])
      {
        ghost var before := words[..];
        var ok := WriteElement(i, s[i]);
        if !ok { return Err; }
        StillHolds(before, words[..], s, i);
      }
      assert s[..|s|] == s;
      return Ok(12 * |s|);
    }

    /** `verify`: true exactly if the buffer holds the sequence. */
    method Verify(s: seq<El>) returns (ok: bool)
      requires Valid()
      ensures ok <==> 12 * |s| <= maxSize && Holds(words[..], s)
    {
      for i := 0 to |s|
        invariant 12 * i <= maxSize && Holds(words[..], s[..i])
      {
        if 12 * i + 12 > maxSize { return false; }
        WordsFit(i, maxSize);
        var control, value := Stored32(s[i].control), Stored32(s[i].value);
        if words[3 * i] != control || words[3 * i + 1] != s[i].count || words[3 * i + 2] != value {
          assert !HoldsAt(words[..], i, s[i]);
          return false;
        }
        StillHolds(words[..], words[..], s, i);
      }
      assert s[..|s|] == s;
      return true;
    }
  }

  lemma StillHolds(before: seq<u32>, after: seq<u32>, s: seq<El>, i: nat)
    requires i < |s| && |before| == |after| && Holds(before, s[..i]) && HoldsAt(after, i, s[i])
    requires forall k :: 0 <= k < 3 * i && k < |after| ==> after[k] == before[k]
    ensures Holds(after, s[..i + 1])
  {
    forall j | 0 <= j < i + 1 ensures HoldsAt(after, j, s[j]) {
      if j < i { assert s[..i][j] == s[j] && HoldsAt(before, j, s[j]); }
    }
  }
}
