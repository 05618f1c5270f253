/** The `Question` and `Response` collections. Their schema files are not
    part of this model; the records carry exactly the paths the handlers read
    and write. */
module ResponseModel {
  import opened Common

  /** A question. `higherValueOption` is `forcedChoice?.higherValueOption`,
      which may be undefined, null or a string. */
  datatype Question = Question(
    id: Id,
    questionCode: string,
    questionStem: string,
    stakeholder: string,
    domain: string,
    subdomain: string,
    questionType: string,
    scale: string,
    higherValueOption: Field,
    subdomainWeight: int)

  /** An `answer` as it arrives in a JSON body: a number (an exact
      rational), a string, a boolean or null. */
  datatype Answer = Num(n: real) | Str(s: string) | Bool(b: bool) | NullAnswer

  datatype Direction = Higher | Lower

  /** A stored response: the derived record `saveResponse` writes. The raw
      answer itself is not kept. `comment` distinguishes an unset path
      (`Absent`) from an explicit null. */
  datatype Response = Response(
    assessmentId: Id,
    questionId: Id,
    questionCode: string,
    questionStem: string,
    stakeholder: string,
    domain: string,
    subdomain: string,
    questionType: string,
    scale: string,
    value: Option<real>,
    selectedOption: Option<string>,
    higherValueOption: Option<string>,
    valueDirection: Option<Direction>,
    comment: Field,
    subdomainWeight: int)

  /** The upsert key of a response. */
  predicate SameKey(r: Response, assessmentId: Id, questionId: Id) {
    r.assessmentId == assessmentId && r.questionId == questionId
  }

  /** At most one stored response per (assessmentId, questionId). */
  ghost predicate KeysUnique(rs: seq<Response>) {
    forall i, j :: 0 <= i < j < |rs| ==>
      !SameKey(rs[j], rs[i].assessmentId, rs[i].questionId)
  }

  /** `Response.find({ assessmentId })`, in storage order. */
  function ResponsesOf(rs: seq<Response>, assessmentId: Id): (r: seq<Response>)
    ensures forall i :: 0 <= i < |r| ==> r[i].assessmentId == assessmentId
    ensures forall i :: 0 <= i < |rs| && rs[i].assessmentId == assessmentId ==> rs[i] in r
    ensures forall i :: 0 <= i < |r| ==> r[i] in rs
  {
    FilterMembers(rs, (x: Response) => x.assessmentId == assessmentId);
    Filter(rs, (x: Response) => x.assessmentId == assessmentId)
  }
}
