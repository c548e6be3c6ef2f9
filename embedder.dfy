/** `GeminiEmbeddingFunction.__call__`: embeds each text in turn, retrying
    after quota errors and substituting a zero vector after other errors. */
module Embedder {
  import opened Strings

  /** An embedding; only its length and whether it is all zeros matter here. */
  type Vector = seq<real>

  /** Length of the fallback vector. */
  const FallbackDimension: nat := 768
  /** Bound of `retry_count`: quota errors tolerated per text. */
  const MaxAttempts: nat := 3

  /** `[0.0] * 768`. */
  function ZeroVector(): (v: Vector)
    ensures |v| == FallbackDimension
    ensures forall k :: 0 <= k < |v| ==> v[k] == 0.0
  {
    seq(FallbackDimension, _ => 0.0)
  }

  /** What one call of the embedding service gives: the embedding, or the
      message of the exception it raised. */
  datatype Reply = Embedding(vector: Vector) | Failure(message: string)

  /** The embedding service as an oracle: its reply to attempt `attempt`
      (counted from 0) for the text at position `index`. */
  type Service = (nat, nat) -> Reply

  /** The quota test of `__call__`: an error is a rate-limit error when its message
      mentions "429" or "Quota". */
  predicate IsQuotaError(message: string)
  {
    Contains(message, "429") || Contains(message, "Quota")
  }

  /** Attempt `attempt` for text `i` failed with a rate-limit error. */
  predicate QuotaFailed(service: Service, i: nat, attempt: nat)
  {
    service(i, attempt).Failure? && IsQuotaError(service(i, attempt).message)
  }

  /** How the retry loop ends for one text: with the embedding of attempt
      `attempt`, with the zero vector after a non-quota error at attempt
      `attempt`, or with nothing after `MaxAttempts` quota errors. */
  datatype Settled = Succeeded(vector: Vector, attempt: nat) | FellBack(attempt: nat) | GaveUp

  /** The retry loop for text `i`, entered with `retry_count == attempt`. */
  function Settle(service: Service, i: nat, attempt: nat): Settled
    decreases MaxAttempts - attempt
  {
    if attempt >= MaxAttempts then GaveUp
    else match service(i, attempt)
      case Embedding(v) => Succeeded(v, attempt)
      case Failure(message) =>
        if IsQuotaError(message) then Settle(service, i, attempt + 1) else FellBack(attempt)
  }

  /** What the loop appends for one text. */
  function Appended(s: Settled): seq<Vector>
  {
    match s
    case Succeeded(v, _) => [v]
    case FellBack(_) => [ZeroVector()]
    case GaveUp => []
  }

  /** Rate-limit waits (`time.sleep(20)`) spent on one text. */
  function WaitsOf(s: Settled): nat
  {
    match s
    case Succeeded(_, a) => a
    case FellBack(a) => a
    case GaveUp => MaxAttempts
  }

  /** Calls of the service made for one text. */
  function CallsOf(s: Settled): nat
  {
    match s
    case Succeeded(_, a) => a + 1
    case FellBack(a) => a + 1
    case GaveUp => MaxAttempts
  }

  /** The list `__call__` returns after the first `n` texts. */
  function Embeddings(service: Service, n: nat): seq<Vector>
  {
    if n == 0 then [] else Embeddings(service, n - 1) + Appended(Settle(service, n - 1, 0))
  }

  /** Waits spent on the first `n` texts. */
  function Waits(service: Service, n: nat): nat
  {
    if n == 0 then 0 else Waits(service, n - 1) + WaitsOf(Settle(service, n - 1, 0))
  }

  /** Service calls made for the first `n` texts. */
  function Calls(service: Service, n: nat): nat
  {
    if n == 0 then 0 else Calls(service, n - 1) + CallsOf(Settle(service, n - 1, 0))
  }

  /** The nested loop of `__call__`. `waits` counts the 20-second sleeps and
      `calls` the requests sent to the service. */
  method EmbedAll(texts: seq<string>, service: Service) returns (embeddings: seq<Vector>, waits: nat, calls: nat)
    ensures embeddings == Embeddings(service, |texts|)
    ensures waits == Waits(service, |texts|)
    ensures calls == Calls(service, |texts|)
  {
    embeddings, waits, calls := [], 0, 0;
    for i := 0 to |texts|
      invariant embeddings == Embeddings(service, i)
      invariant waits == Waits(service, i)
      invariant calls == Calls(service, i)
    {
      var retryCount := 0;
      while retryCount < MaxAttempts
        invariant retryCount <= MaxAttempts
        invariant Settle(service, i, retryCount) == Settle(service, i, 0)
        invariant embeddings == Embeddings(service, i)
        invariant waits == Waits(service, i) + retryCount
        invariant calls == Calls(service, i) + retryCount
      {
        var reply := service(i, retryCount);
        calls := calls + 1;
        if reply.Embedding? {
          embeddings := embeddings + [reply.vector];
          break;
        } else if IsQuotaError(reply.message) {
          waits := waits + 1;
          retryCount := retryCount + 1;
        } else {
          embeddings := embeddings + [ZeroVector()];
          break;
        }
      }
    }
  }

  /** The loop ends with the embedding of attempt `q` exactly when attempt `q`
      is the first one, from `k` on, that did not hit the rate limit, and it
      returned an embedding. */
  lemma {:induction false} SucceededIff(service: Service, i: nat, k: nat, v: Vector, q: nat)
    requires k <= MaxAttempts
    ensures Settle(service, i, k) == Succeeded(v, q) <==>
            k <= q < MaxAttempts && service(i, q) == Embedding(v) &&
            forall a :: k <= a < q ==> QuotaFailed(service, i, a)
    decreases MaxAttempts - k
  {
    if k < MaxAttempts {
      match service(i, k)
      case Embedding(w) =>
        if q != k { assert !QuotaFailed(service, i, k); }
      case Failure(message) =>
        if IsQuotaError(message) {
          SucceededIff(service, i, k + 1, v, q);
          assert QuotaFailed(service, i, k);
        } else {
          assert !QuotaFailed(service, i, k);
        }
    }
  }

  /** The loop ends with the zero vector after attempt `q` exactly when
      attempt `q` is the first one, from `k` on, that did not hit the rate
      limit, and it failed with some other error. */
  lemma {:induction false} FellBackIff(service: Service, i: nat, k: nat, q: nat)
    requires k <= MaxAttempts
    ensures Settle(service, i, k) == FellBack(q) <==>
            k <= q < MaxAttempts && service(i, q).Failure? && !IsQuotaError(service(i, q).message) &&
            forall a :: k <= a < q ==> QuotaFailed(service, i, a)
    decreases MaxAttempts - k
  {
    if k < MaxAttempts {
      match service(i, k)
      case Embedding(w) =>
        assert !QuotaFailed(service, i, k);
      case Failure(message) =>
        if IsQuotaError(message) {
          FellBackIff(service, i, k + 1, q);
          assert QuotaFailed(service, i, k);
        } else {
          assert !QuotaFailed(service, i, k);
        }
    }
  }

  /** The loop gives up on a text, appending nothing, exactly when every
      remaining attempt hit the rate limit. */
  lemma {:induction false} GaveUpIff(service: Service, i: nat, k: nat)
    requires k <= MaxAttempts
    ensures Settle(service, i, k) == GaveUp <==> forall a :: k <= a < MaxAttempts ==> QuotaFailed(service, i, a)
    decreases MaxAttempts - k
  {
    if k < MaxAttempts {
      match service(i, k)
      case Embedding(w) =>
        assert !QuotaFailed(service, i, k);
      case Failure(message) =>
        if IsQuotaError(message) {
          GaveUpIff(service, i, k + 1);
          assert QuotaFailed(service, i, k);
        } else {
          assert !QuotaFailed(service, i, k);
        }
    }
  }

  /** At most one vector per text, and exactly one per text when no text
      exhausts its retries. */
  lemma {:induction false} EmbeddingsLength(service: Service, n: nat)
    ensures |Embeddings(service, n)| <= n
    ensures |Embeddings(service, n)| == n ==> forall i :: 0 <= i < n ==> !Settle(service, i, 0).GaveUp?
    ensures (forall i :: 0 <= i < n ==> !Settle(service, i, 0).GaveUp?) ==> |Embeddings(service, n)| == n
  {
    if n > 0 {
      EmbeddingsLength(service, n - 1);
      var s := Settle(service, n - 1, 0);
      assert |Embeddings(service, n)| == |Embeddings(service, n - 1)| + |Appended(s)|;
    }
  }

  /** Every call either ends in a rate-limit wait or appends a vector, and no
      text gets more than `MaxAttempts` calls. */
  lemma {:induction false} CallsAccounting(service: Service, n: nat)
    ensures Calls(service, n) == Waits(service, n) + |Embeddings(service, n)|
    ensures Calls(service, n) <= MaxAttempts * n
    ensures forall i :: 0 <= i < n ==> CallsOf(Settle(service, i, 0)) <= MaxAttempts
  {
    if n > 0 {
      CallsAccounting(service, n - 1);
      CallsPerText(service, n - 1, 0);
    }
  }

  /** A text entered with `retry_count == k` gets at most `MaxAttempts - k` more calls. */
  lemma {:induction false} CallsPerText(service: Service, i: nat, k: nat)
    requires k <= MaxAttempts
    ensures CallsOf(Settle(service, i, k)) <= MaxAttempts
    ensures !Settle(service, i, k).GaveUp? ==> k <= WaitsOf(Settle(service, i, k)) < MaxAttempts
    decreases MaxAttempts - k
  {
    if k < MaxAttempts && service(i, k).Failure? && IsQuotaError(service(i, k).message) {
      CallsPerText(service, i, k + 1);
    }
  }

  /** The vector the loop appends for a text that did not give up. */
  function VectorOf(s: Settled): Vector
    requires !s.GaveUp?
  {
    if s.Succeeded? then s.vector else ZeroVector()
  }

  /** Positions, in increasing order, of the first `n` texts that contributed a vector. */
  function Kept(service: Service, n: nat): seq<nat>
  {
    if n == 0 then []
    else Kept(service, n - 1) + (if Settle(service, n - 1, 0).GaveUp? then [] else [n - 1])
  }

  /** Outputs follow input order: output `j` is the vector of the `j`-th text
      that did not give up, and these texts are listed in increasing order. */
  lemma {:induction false} EmbeddingsInOrder(service: Service, n: nat)
    ensures |Kept(service, n)| == |Embeddings(service, n)|
    ensures forall j :: 0 <= j < |Kept(service, n)| ==> Kept(service, n)[j] < n
    ensures forall j, l :: 0 <= j < l < |Kept(service, n)| ==> Kept(service, n)[j] < Kept(service, n)[l]
    ensures forall i :: 0 <= i < n && !Settle(service, i, 0).GaveUp? ==> i in Kept(service, n)
    ensures forall j :: 0 <= j < |Kept(service, n)| ==>
              !Settle(service, Kept(service, n)[j], 0).GaveUp? &&
              Embeddings(service, n)[j] == VectorOf(Settle(service, Kept(service, n)[j], 0))
  {
    if n > 0 {
      EmbeddingsInOrder(service, n - 1);
      var s := Settle(service, n - 1, 0);
      if !s.GaveUp? {
        assert Appended(s) == [VectorOf(s)];
      }
    }
  }

  /** A service that fails every call with a non-quota error gets one zero
      vector per text, one call each and no wait. */
  lemma {:induction false} AlwaysFailing(service: Service, n: nat)
    requires forall i, a :: service(i, a).Failure? && !IsQuotaError(service(i, a).message)
    ensures Embeddings(service, n) == seq(n, _ => ZeroVector())
    ensures Calls(service, n) == n && Waits(service, n) == 0
  {
    if n > 0 {
      AlwaysFailing(service, n - 1);
      assert Settle(service, n - 1, 0) == FellBack(0);
    }
  }

  /** A service that always reports a quota error gets `MaxAttempts` calls
      and waits per text, and the result is empty. */
  lemma {:induction false} AlwaysRateLimited(service: Service, n: nat)
    requires forall i, a :: QuotaFailed(service, i, a)
    ensures Embeddings(service, n) == []
    ensures Calls(service, n) == MaxAttempts * n && Waits(service, n) == MaxAttempts * n
  {
    if n > 0 {
      AlwaysRateLimited(service, n - 1);
      GaveUpIff(service, n - 1, 0);
    }
  }

  /** Two quota errors and then an embedding: three calls, two waits, and the
      real embedding is kept rather than the fallback. */
  lemma RateLimitedTwiceThenEmbedded(service: Service, i: nat, v: Vector)
    requires QuotaFailed(service, i, 0) && QuotaFailed(service, i, 1)
    requires service(i, 2) == Embedding(v)
    ensures Settle(service, i, 0) == Succeeded(v, 2)
    ensures CallsOf(Settle(service, i, 0)) == 3 && WaitsOf(Settle(service, i, 0)) == 2
    ensures Appended(Settle(service, i, 0)) == [v]
  {
    SucceededIff(service, i, 0, v, 2);
  }
}
