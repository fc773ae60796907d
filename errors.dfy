/**
 * Exceptions as values, and the classifier that decides which store failures
 * are worth retrying.
 */
module Errors {
  import opened Wrappers
  import opened Strings

  /**
   * The exception types the classifier distinguishes. Each constructor means
   * "is a": an exception of a subclass (ObjectDisposedException, say, for
   * InvalidOperationException) is classified under its base type. A type that
   * derives from none of the three is Other.
   */
  datatype ExceptionType =
    | TimeoutException
    | HttpRequestException
    | InvalidOperationException
    | Other(name: string)

  /** An exception with its message and its InnerException chain. */
  datatype Exception = Exception(kind: ExceptionType, message: string, inner: Option<Exception>)

  const TransientMarker := "transient failure"

  /** The three shapes of exception that are transient in themselves, without looking inside. */
  predicate TransientItself(ex: Exception)
  {
    || ex.kind == TimeoutException
    || ex.kind == HttpRequestException
    || (ex.kind == InvalidOperationException && Contains(ex.message, TransientMarker))
  }

  /** IsTransientError: the exception or one of its inner exceptions is transient in itself. */
  predicate IsTransientError(ex: Exception)
    decreases ex
  {
    TransientItself(ex) || (ex.inner.Some? && IsTransientError(ex.inner.value))
  }

  /** The exception followed by its inner exceptions, outermost first. */
  function Chain(ex: Exception): (c: seq<Exception>)
    decreases ex
    ensures |c| >= 1 && c[0] == ex
  {
    if ex.inner.None? then [ex] else [ex] + Chain(ex.inner.value)
  }

  /** The recursive classifier agrees with "some exception of the chain is transient in itself". */
  lemma {:induction false} TransientIffSomeInChain(ex: Exception)
    decreases ex
    ensures IsTransientError(ex) <==> exists k :: 0 <= k < |Chain(ex)| && TransientItself(Chain(ex)[k])
  {
    if ex.inner.Some? {
      var rest := Chain(ex.inner.value);
      TransientIffSomeInChain(ex.inner.value);
      assert Chain(ex) == [ex] + rest;
      if IsTransientError(ex.inner.value) {
        var k :| 0 <= k < |rest| && TransientItself(rest[k]);
        assert Chain(ex)[k + 1] == rest[k];
      }
      if exists k :: 0 <= k < |Chain(ex)| && TransientItself(Chain(ex)[k]) {
        var k :| 0 <= k < |Chain(ex)| && TransientItself(Chain(ex)[k]);
        if k > 0 {
          assert rest[k - 1] == Chain(ex)[k];
          assert 0 <= k - 1 < |Chain(ex.inner.value)| && TransientItself(Chain(ex.inner.value)[k - 1]);
          assert IsTransientError(ex.inner.value);
        }
      }
    } else {
      assert Chain(ex) == [ex];
    }
  }

  /** A transient exception stays transient however deeply it is wrapped. */
  lemma WrappingKeepsTransient(outer: Exception)
    requires outer.inner.Some? && IsTransientError(outer.inner.value)
    ensures IsTransientError(outer)
  {
  }

  /** A message mentioning the marker makes an InvalidOperationException transient; the same message on any other type does not. */
  lemma MarkerOnlyCountsOnInvalidOperation(prefix: string, suffix: string, name: string)
    ensures IsTransientError(Exception(InvalidOperationException, prefix + TransientMarker + suffix, None))
    ensures !IsTransientError(Exception(Other(name), prefix + TransientMarker + suffix, None))
  {
    var m := prefix + TransientMarker + suffix;
    assert m[|prefix|..|prefix| + |TransientMarker|] == TransientMarker;
    assert OccursAt(m, TransientMarker, |prefix|);
  }
}
