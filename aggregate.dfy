/*
 * Status aggregation of the block operations (n24cxx.c): the result starts
 * as n24cxx_status_undefined and every chunk's status is OR-ed into it.
 */
module StatusAggregate {
  import opened N24CxxTypes

  /** The status after OR-ing the chunk statuses `s`, in order, into n24cxx_status_undefined. */
  function Aggregate(s: seq<Status>): (status: Status)
  {
    if s == [] then Undefined.Code() else Aggregate(s[..|s| - 1]) | s[|s| - 1]
  }

  /** The codes of a sequence of enum statuses. */
  function Codes(kinds: seq<StatusE>): (s: seq<Status>)
    ensures |s| == |kinds|
    ensures forall i :: 0 <= i < |kinds| ==> s[i] == kinds[i].Code()
  {
    seq(|kinds|, i requires 0 <= i < |kinds| => kinds[i].Code())
  }

  /** Status `x` has some bit of `mask` set. */
  predicate Meets(x: Status, mask: Status) {
    x & mask != 0
  }

  /** Some bit of `mask` is set in `x | y` exactly when it is set in `x` or in `y`. */
  lemma OrMeetsMask(x: Status, y: Status, mask: Status)
    ensures Meets(x | y, mask) <==> Meets(x, mask) || Meets(y, mask)
  {
    assert (x | y) & mask == (x & mask) | (y & mask);
  }

  /** Some chunk's status meets `mask`. */
  ghost predicate SomeChunkMeets(s: seq<Status>, mask: Status) {
    exists i :: 0 <= i < |s| && Meets(s[i], mask)
  }

  /** OR-ing one more chunk into the aggregate adds exactly that chunk's bits. */
  lemma AggregateStep(s: seq<Status>, mask: Status)
    requires s != []
    ensures Meets(Aggregate(s), mask) <==> Meets(Aggregate(s[..|s| - 1]), mask) || Meets(s[|s| - 1], mask)
  {
    AggregateUnfold(s);
    OrMeetsMask(Aggregate(s[..|s| - 1]), s[|s| - 1], mask);
  }

  lemma AggregateUnfold(s: seq<Status>)
    requires s != []
    ensures Aggregate(s) == Aggregate(s[..|s| - 1]) | s[|s| - 1]
  {
  }

  /** Some chunk of `s` meets `mask` exactly when some chunk before the last does or the last does. */
  lemma SomeChunkStep(s: seq<Status>, mask: Status)
    requires s != []
    ensures SomeChunkMeets(s, mask) <==> SomeChunkMeets(s[..|s| - 1], mask) || Meets(s[|s| - 1], mask)
  {
    var n := |s| - 1;
    var front := s[..n];
    if SomeChunkMeets(front, mask) {
      var i :| 0 <= i < n && Meets(front[i], mask);
      assert s[i] == front[i];
    }
    if SomeChunkMeets(s, mask) && !Meets(s[n], mask) {
      var i :| 0 <= i < |s| && Meets(s[i], mask);
      assert i < n && front[i] == s[i];
    }
  }

  /** A bit is set in the aggregate exactly when it is set in some chunk's status. */
  lemma {:induction false} AggregateHasBit(s: seq<Status>, mask: Status)
    ensures Meets(Aggregate(s), mask) <==> SomeChunkMeets(s, mask)
  {
    if s == [] {
      assert !Meets(Undefined.Code(), mask);
    } else {
      AggregateHasBit(s[..|s| - 1], mask);
      AggregateStep(s, mask);
      SomeChunkStep(s, mask);
    }
  }

  /** No chunk's status bits are lost: each is contained in the aggregate. */
  lemma {:induction false} AggregateKeepsEveryChunk(s: seq<Status>, i: nat)
    requires i < |s|
    ensures s[i] | Aggregate(s) == Aggregate(s)
  {
    var n := |s| - 1;
    if i < n {
      AggregateKeepsEveryChunk(s[..n], i);
      assert s[..n][i] == s[i];
    }
  }

  /** The generic error bit is in the aggregate exactly when some chunk reported it. */
  lemma ErrorBitIffSomeChunk(s: seq<Status>)
    ensures Meets(Aggregate(s), ErrorBit) <==> exists i :: 0 <= i < |s| && Meets(s[i], ErrorBit)
  {
    AggregateHasBit(s, ErrorBit);
  }

  /** When every chunk reports the same status, so does the aggregate; with no chunk it is 0. */
  lemma {:induction false} AggregateOfUniform(s: seq<Status>, x: Status)
    requires forall i :: 0 <= i < |s| ==> s[i] == x
    ensures Aggregate(s) == if s == [] then Undefined.Code() else x
  {
    if |s| > 1 {
      AggregateOfUniform(s[..|s| - 1], x);
    }
  }

  /** All chunks ok: the aggregate is exactly ok. */
  lemma AllOkIsOk(s: seq<Status>)
    requires s != []
    requires forall i :: 0 <= i < |s| ==> s[i] == Ok.Code()
    ensures Aggregate(s) == Ok.Code()
  {
    AggregateOfUniform(s, Ok.Code());
  }

  /** Every kind of specific error that occurred can be read back from the aggregate
      of enum statuses, and no kind that did not occur shows up. */
  lemma RecoverErrorKinds(kinds: seq<StatusE>, e: StatusE)
    requires e.IsSpecificError()
    ensures Meets(Aggregate(Codes(kinds)), e.Code() & KindBits) <==> e in kinds
  {
    var s := Codes(kinds);
    AggregateHasBit(s, e.Code() & KindBits);
    forall i | 0 <= i < |kinds|
      ensures Meets(s[i], e.Code() & KindBits) <==> kinds[i] == e
    {
      SpecificErrorHasOwnBit(e, kinds[i]);
    }
  }

  /** The aggregate forgets which chunk failed: a failure on the first chunk and one on
      the second give the same result, and that result carries both ok and an error. */
  lemma ChunkOfFailureIsLost()
    ensures Aggregate(Codes([ErrorComms, Ok])) == Aggregate(Codes([Ok, ErrorComms]))
    ensures Aggregate(Codes([ErrorComms, Ok])) == ErrorComms.Code() | Ok.Code()
    ensures Meets(Aggregate(Codes([ErrorComms, Ok])), ErrorBit)
    ensures Meets(Aggregate(Codes([ErrorComms, Ok])), Ok.Code())
  {
    var a := Codes([ErrorComms, Ok]);
    var b := Codes([Ok, ErrorComms]);
    assert a[..1] == [ErrorComms.Code()] && [ErrorComms.Code()][..0] == [];
    assert b[..1] == [Ok.Code()] && [Ok.Code()][..0] == [];
  }
}
