/** The assessment record the server's GET `/api/data` returns, and the
    app's `fetchData` helper that hands the parsed body to the screens.
    JSON values are modelled by a small datatype; the transport is left out. */
module AssessmentApi {
  import opened Base

  datatype Json =
    | JBool(b: bool)
    | JNumber(n: real)
    | JString(s: string)
    | JObject(fields: map<string, Json>)

  datatype AssessmentData = AssessmentData(
    condition: string,
    estimatedRefundValue: real,
    isEligibleToReturn: bool,
    noRepairsNeeded: bool,
    withinReturnWindow: bool)

  /** The object the server serialises for an assessment. */
  function Encode(d: AssessmentData): map<string, Json>
  {
    map[
      "condition" := JString(d.condition),
      "estimatedRefundValue" := JNumber(d.estimatedRefundValue),
      "isEligibleToReturn" := JBool(d.isEligibleToReturn),
      "noRepairsNeeded" := JBool(d.noRepairsNeeded),
      "withinReturnWindow" := JBool(d.withinReturnWindow)]
  }

  /** Reads an assessment out of a fetched value; anything that is not an
      object with the five fields at the right types counts as no data. */
  function AsAssessment(j: Option<Json>): (d: Option<AssessmentData>)
    ensures d.Some? ==> j.Some? && j.value.JObject?
    ensures d.Some? ==> forall key :: key in Encode(d.value) ==>
      key in j.value.fields && j.value.fields[key] == Encode(d.value)[key]
  {
    match j
    case Some(JObject(f)) =>
      if && "condition" in f && f["condition"].JString?
         && "estimatedRefundValue" in f && f["estimatedRefundValue"].JNumber?
         && "isEligibleToReturn" in f && f["isEligibleToReturn"].JBool?
         && "noRepairsNeeded" in f && f["noRepairsNeeded"].JBool?
         && "withinReturnWindow" in f && f["withinReturnWindow"].JBool?
      then Some(AssessmentData(
        f["condition"].s, f["estimatedRefundValue"].n, f["isEligibleToReturn"].b,
        f["noRepairsNeeded"].b, f["withinReturnWindow"].b))
      else None
    case _ => None
  }

  /** Reading back an encoded assessment gives the assessment. */
  lemma DecodeEncode(d: AssessmentData)
    ensures AsAssessment(Some(JObject(Encode(d)))) == Some(d)
  {
  }

  /** The mock assessment of the GET handler. */
  const MockAssessment: AssessmentData := AssessmentData("Used-Good", 120.0, true, true, true)

  function GetAssessmentBody(): map<string, Json>
  {
    Encode(MockAssessment)
  }

  /** `fetchData` as written: it returns `data.message`, which is undefined
      when the body has no `message` key. */
  function FetchDataAsWritten(body: map<string, Json>): Option<Json>
  {
    if "message" in body then Some(body["message"]) else None
  }

  /** The GET body carries no `message` key, so the helper as written
      delivers no assessment at all. */
  lemma FetchAsWrittenLosesAssessment()
    ensures FetchDataAsWritten(GetAssessmentBody()) == None
    ensures AsAssessment(FetchDataAsWritten(GetAssessmentBody())) == None
  {
    assert "message" !in GetAssessmentBody();
  }

  /** `fetchData` corrected to return the parsed body itself, which is what
      the assessment screen reads its fields from. */
  function FetchData(body: map<string, Json>): Option<Json>
  {
    Some(JObject(body))
  }

  /** With the corrected helper, every assessment the server encodes reaches
      the screen intact. */
  lemma FetchDeliversAssessment(d: AssessmentData)
    ensures AsAssessment(FetchData(Encode(d))) == Some(d)
  {
    DecodeEncode(d);
  }
}
