/** `get_template_by_key` and `delete_template_by_key`: remote calls whose
    "not found" answer (404) is absorbed while every other failure
    propagates. The remote answer is a parameter. */
module Templates {
  import opened Wrappers

  /** `get_template_by_key`: the template, `None` when the remote system
      answers 404, and the `BoxAPIError` re-raised for any other status. */
  function GetTemplateByKey<T>(response: Response<T>): (r: Outcome<Option<T>>)
    ensures response.Ok? ==> r == Returned(Some(response.payload))
    ensures r == Returned(None) <==> response == Err(NotFound)
    ensures r.Raised? <==> response.Err? && response.status != NotFound
    ensures r.Raised? ==> r.exception == BoxAPIError(response.status)
  {
    match response
    case Ok(template) => Returned(Some(template))
    case Err(status) => if status == NotFound then Returned(None) else Raised(BoxAPIError(status))
  }

  /** `delete_template_by_key`: returns normally after a deletion or a 404,
      and re-raises the `BoxAPIError` for any other status. */
  function DeleteTemplateByKey(response: Response<()>): (r: Outcome<()>)
    ensures r.Returned? <==> response.Ok? || response.status == NotFound
    ensures r.Raised? ==> r.exception == BoxAPIError(response.status) && response.status != NotFound
  {
    match response
    case Ok(_) => Returned(())
    case Err(status) => if status == NotFound then Returned(()) else Raised(BoxAPIError(status))
  }

  /** Neither call ever lets a 404 escape, and both re-raise every other
      failure with its status unchanged. */
  lemma NotFoundNeverEscapes<T>(getResponse: Response<T>, deleteResponse: Response<()>)
    ensures GetTemplateByKey(getResponse) != Raised(BoxAPIError(NotFound))
    ensures DeleteTemplateByKey(deleteResponse) != Raised(BoxAPIError(NotFound))
    ensures getResponse.Err? && getResponse.status != NotFound ==>
              GetTemplateByKey(getResponse) == Raised(BoxAPIError(getResponse.status))
    ensures deleteResponse.Err? && deleteResponse.status != NotFound ==>
              DeleteTemplateByKey(deleteResponse) == Raised(BoxAPIError(deleteResponse.status))
  {
  }
}
