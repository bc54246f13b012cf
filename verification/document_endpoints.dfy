/** The document endpoints: the single upsert rejects blank text before indexing;
    the batch upsert indexes item by item, collects one error per failed item and
    counts the successes. The indexer is a parameter that answers (or throws with
    a message) and moves the collection on. */
module DocumentEndpoints {
  import opened Wrappers
  import opened Strings
  import opened Http
  import opened DocumentIndexing

  const TextRequiredMessage := "Text is required and cannot be empty."
  const LabelLength := 40

  /** An indexer call: the response or the exception's message, and the next state. */
  type Indexer<!S> = (DocumentUpsertRequest, S) -> (Result<DocumentUpsertResponse, string>, S)

  // ---------------------------------------------------------------- single upsert

  /** `POST /documents`: blank text is a bad request and the indexer is not called;
      otherwise the indexer's answer is `Ok`, its exception a problem. */
  function UpsertDocument<S>(req: DocumentUpsertRequest, index: Indexer<S>, s: S): (r: (HttpResult<DocumentUpsertResponse>, S))
    ensures r.0.BadRequest? <==> IsBlank(req.text)
    ensures IsBlank(req.text) ==> r == (BadRequest(TextRequiredMessage), s)
    ensures !IsBlank(req.text) ==> r.1 == index(req, s).1
    ensures r.0.Ok? <==> !IsBlank(req.text) && index(req, s).0.Success?
  {
    if IsBlank(req.text) then (BadRequest(TextRequiredMessage), s)
    else
      var (res, s') := index(req, s);
      match res
      case Success(response) => (Ok(response), s')
      case Failure(message) => (Problem(message), s')
  }

  // ---------------------------------------------------------------- batch upsert

  /** `BatchUpsertResponse`. */
  datatype BatchUpsertResponse = BatchUpsertResponse(total: int, succeeded: int, failed: int, errors: seq<string>)

  /** The label of an item whose indexing threw: its id, else the first forty
      characters of its text. */
  function FailureLabel(req: DocumentUpsertRequest): (name: string)
    ensures req.id.None? ==> |name| <= LabelLength && |name| <= |req.text| && name == req.text[..|name|]
    ensures req.id.None? && |req.text| >= LabelLength ==> |name| == LabelLength
    ensures req.id.None? && |req.text| < LabelLength ==> name == req.text
  {
    match req.id
    case Some(id) => id
    case None => req.text[..if |req.text| < LabelLength then |req.text| else LabelLength]
  }

  function BlankError(req: DocumentUpsertRequest): string {
    "[" + req.id.GetOr("(empty)") + "]: " + TextRequiredMessage
  }

  function IndexingError(req: DocumentUpsertRequest, message: string): string {
    "[" + FailureLabel(req) + "]: " + message
  }

  /** The loop's running state: successes, errors in order, and the indexer's state. */
  datatype Tally<S> = Tally(succeeded: nat, errors: seq<string>, state: S)

  /** One iteration: a blank item adds its error without calling the indexer; any
      other item is indexed and either counts as a success or adds its error. */
  function Step<S>(t: Tally<S>, req: DocumentUpsertRequest, index: Indexer<S>): Tally<S> {
    if IsBlank(req.text) then t.(errors := t.errors + [BlankError(req)])
    else
      var (res, s') := index(req, t.state);
      if res.Success? then Tally(t.succeeded + 1, t.errors, s')
      else Tally(t.succeeded, t.errors + [IndexingError(req, res.error)], s')
  }

  /** The loop over the whole batch, one item after the other. */
  function Fold<S>(batch: seq<DocumentUpsertRequest>, index: Indexer<S>, t: Tally<S>): Tally<S>
    decreases |batch|
  {
    if |batch| == 0 then t else Step(Fold(batch[..|batch| - 1], index, t), batch[|batch| - 1], index)
  }

  /** `POST /documents/batch`. */
  method BatchUpsert<S>(batch: seq<DocumentUpsertRequest>, index: Indexer<S>, s: S) returns (resp: BatchUpsertResponse, s': S)
    ensures resp.total == |batch|
    ensures resp.succeeded + resp.failed == resp.total
    ensures resp.failed == |resp.errors|
    ensures var t := Fold(batch, index, Tally(0, [], s));
      resp.succeeded == t.succeeded && resp.errors == t.errors && s' == t.state
  {
    var errors: seq<string> := [];
    var succeeded := 0;
    var state := s;
    var i := 0;
    while i < |batch|
      invariant 0 <= i <= |batch|
      invariant Fold(batch[..i], index, Tally(0, [], s)) == Tally(succeeded, errors, state)
      invariant succeeded + |errors| == i
    {
      var req := batch[i];
      assert batch[..i + 1][..i] == batch[..i];
      if IsBlank(req.text) {
        errors := errors + [BlankError(req)];
      } else {
        var (res, next) := index(req, state);
        state := next;
        if res.Success? {
          succeeded := succeeded + 1;
        } else {
          errors := errors + [IndexingError(req, res.error)];
        }
      }
      i := i + 1;
    }
    assert batch[..|batch|] == batch;
    resp := BatchUpsertResponse(|batch|, succeeded, |errors|, errors);
    s' := state;
  }

  /** The items are processed independently in order: the batch `a + b` is the
      batch `a` followed by the batch `b`, so a failing item never stops later ones. */
  lemma {:induction false} FoldAppend<S>(a: seq<DocumentUpsertRequest>, b: seq<DocumentUpsertRequest>, index: Indexer<S>, t: Tally<S>)
    ensures Fold(a + b, index, t) == Fold(b, index, Fold(a, index, t))
    decreases |b|
  {
    if |b| == 0 {
      assert a + b == a;
    } else {
      var b' := b[..|b| - 1];
      assert (a + b)[..|a + b| - 1] == a + b';
      assert (a + b)[|a + b| - 1] == b[|b| - 1];
      FoldAppend(a, b', index, t);
    }
  }

  function Blanks(batch: seq<DocumentUpsertRequest>): nat
    decreases |batch|
  {
    if |batch| == 0 then 0 else Blanks(batch[..|batch| - 1]) + (if IsBlank(batch[|batch| - 1].text) then 1 else 0)
  }

  /** Every item adds a success or an error; every blank item adds an error, so
      successes never exceed the items with text. */
  lemma {:induction false} FoldCounts<S>(batch: seq<DocumentUpsertRequest>, index: Indexer<S>, t: Tally<S>)
    ensures var r := Fold(batch, index, t);
      && r.succeeded + |r.errors| == t.succeeded + |t.errors| + |batch|
      && |r.errors| >= |t.errors| + Blanks(batch)
      && r.succeeded <= t.succeeded + |batch| - Blanks(batch)
    decreases |batch|
  {
    if |batch| > 0 {
      FoldCounts(batch[..|batch| - 1], index, t);
    }
  }

  /** A batch of blank items never calls the indexer: every item fails with its
      label, and the state is untouched. */
  lemma {:induction false} AllBlankBatch<S>(batch: seq<DocumentUpsertRequest>, index: Indexer<S>, t: Tally<S>)
    requires forall k :: 0 <= k < |batch| ==> IsBlank(batch[k].text)
    ensures var r := Fold(batch, index, t);
      && r.succeeded == t.succeeded && r.state == t.state
      && r.errors == t.errors + seq(|batch|, k requires 0 <= k < |batch| => BlankError(batch[k]))
    decreases |batch|
  {
    if |batch| > 0 {
      var front := batch[..|batch| - 1];
      AllBlankBatch(front, index, t);
      var r := Fold(front, index, t);
      assert r.errors == t.errors + seq(|front|, k requires 0 <= k < |front| => BlankError(front[k]));
      assert seq(|batch|, k requires 0 <= k < |batch| => BlankError(batch[k]))
        == seq(|front|, k requires 0 <= k < |front| => BlankError(front[k])) + [BlankError(batch[|batch| - 1])];
    }
  }
}
