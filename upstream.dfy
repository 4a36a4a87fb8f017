/** How one call to an upstream API ends, as the code that made it sees it. */
module Upstream {

  datatype HttpAnswer =
    | Answered(status: int, text: string)  // a response; `text` is what the code reads out of its JSON body
    | CallRaised(message: string)          // `requests.post`, or reading the answer, raised an exception with this text

  /** A response with status 200 (`response.status_code == 200`). */
  predicate IsOk(a: HttpAnswer)
  {
    a.Answered? && a.status == 200
  }
}
