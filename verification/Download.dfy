/** The chunk loop of DownloadObject: one buffer, filled again and again by the object's reader. */
module Download {
  import opened Blobs

  const BUFFER_SIZE: nat := 65536

  datatype ReadError = NoError | EndOfFile | OtherError

  /** One answer of the reader: how many bytes it put into the buffer, and with what error. */
  datatype Read = Read(n: nat, err: ReadError)

  /** What io.Reader promises about the reads that follow offset pos of obj: never more than the
      buffer or the object holds, and end of file only once everything has been delivered. */
  ghost predicate Honest(obj: Bytes, pos: nat, answers: seq<Read>)
    decreases |answers|
  {
    answers == [] ||
    (var r := answers[0];
     r.n <= BUFFER_SIZE && pos + r.n <= |obj| &&
     (r.err.EndOfFile? ==> pos + r.n == |obj|) &&
     (r.err.NoError? ==> Honest(obj, pos + r.n, answers[1..])))
  }

  /** Returned without error, returned with the reader's or the stream's error, or still reading
      when the observed reads end. */
  datatype Outcome = Complete | ReadFailed | SendFailed | Reading

  ghost function Concat(chunks: seq<Bytes>): Bytes {
    if chunks == [] then [] else Concat(chunks[..|chunks| - 1]) + chunks[|chunks| - 1]
  }

  lemma {:induction false} ConcatSnoc(chunks: seq<Bytes>, c: Bytes)
    ensures Concat(chunks + [c]) == Concat(chunks) + c
  {
    assert (chunks + [c])[..|chunks|] == chunks;
  }

  /** How far the reads before the first error get. */
  ghost function Delivered(pos: nat, answers: seq<Read>): nat
    decreases |answers|
  {
    if answers == [] then pos
    else if !answers[0].err.NoError? then pos + answers[0].n
    else Delivered(pos + answers[0].n, answers[1..])
  }

  /** The first error among the reads. */
  ghost function FirstError(answers: seq<Read>): ReadError
    decreases |answers|
  {
    if answers == [] then NoError
    else if answers[0].err.NoError? then FirstError(answers[1..])
    else answers[0].err
  }

  /** The reader puts the next n bytes at the front of the buffer; what was behind them stays. */
  method ReadInto(buf: array<Byte>, obj: Bytes, pos: nat, n: nat)
    requires n <= buf.Length && pos + n <= |obj|
    modifies buf
    ensures buf[..n] == obj[pos..pos + n] && buf[n..] == old(buf[n..])
  {
    forall i | 0 <= i < n {
      buf[i] := obj[pos + i];
    }
  }

  /** For every behaviour of the reader (short and empty reads, bytes together with end of file,
      errors in mid-stream) and of the stream, which fails at chunk failAt: the chunks are not empty,
      fit the buffer and make up a first part of the object, all of it when no error is returned. */
  method DownloadObject(obj: Bytes, answers: seq<Read>, failAt: nat) returns (chunks: seq<Bytes>, outcome: Outcome)
    requires Honest(obj, 0, answers)
    ensures forall i :: 0 <= i < |chunks| ==> 0 < |chunks[i]| <= BUFFER_SIZE
    ensures Concat(chunks) <= obj
    ensures outcome.Complete? ==> Concat(chunks) == obj
    ensures !outcome.SendFailed? ==> Delivered(0, answers) <= |obj| && Concat(chunks) == obj[..Delivered(0, answers)]
    ensures outcome.Complete? ==> FirstError(answers).EndOfFile?
    ensures outcome.ReadFailed? ==> FirstError(answers).OtherError?
    ensures outcome.Reading? ==> FirstError(answers).NoError?
    ensures outcome.SendFailed? ==> |chunks| == failAt
    ensures |chunks| <= failAt
  {
    chunks := [];
    assert Concat(chunks) == [];
    hide Concat;
    var buf := new Byte[BUFFER_SIZE];
    var pos: nat := 0;
    for k := 0 to |answers|
      invariant pos <= |obj| && Honest(obj, pos, answers[k..])
      invariant forall i :: 0 <= i < |chunks| ==> 0 < |chunks[i]| <= BUFFER_SIZE
      invariant Concat(chunks) == obj[..pos] && |chunks| <= failAt
      invariant Delivered(pos, answers[k..]) == Delivered(0, answers)
      invariant FirstError(answers[k..]) == FirstError(answers)
    {
      assert answers[k..][1..] == answers[k + 1..] && answers[k..][0] == answers[k];
      var r := answers[k];
      ReadInto(buf, obj, pos, r.n);
      if r.n > 0 {
        if |chunks| == failAt {
          return chunks, SendFailed;
        }
        ConcatSnoc(chunks, buf[..r.n]);
        chunks := chunks + [buf[..r.n]];
      }
      assert obj[..pos] + obj[pos..pos + r.n] == obj[..pos + r.n];
      pos := pos + r.n;
      if r.err == EndOfFile {
        assert obj[..|obj|] == obj;
        return chunks, Complete;
      }
      if r.err != NoError {
        return chunks, ReadFailed;
      }
    }
    outcome := Reading;
  }
}
