/** The admin page that uploads a price list: it holds the chosen file, the
    price type, a loading flag and the last results, and sends the file to
    the price-update endpoint. */
module PreciosPage {
  import opened Common
  import UpdatePrices

  /** The File object of the input: its name and MIME type. */
  datatype SelectedFile = SelectedFile(name: string, mimeType: string)

  /** The two Excel MIME types, .xls and .xlsx. */
  const ExcelTypes: seq<string> := ["application/vnd.ms-excel", "application/vnd.openxmlformats-officedocument.spreadsheetml.sheet"]

  const NotExcel := "Por favor, selecciona un archivo Excel válido (.xls o .xlsx)"
  const NoFile := "Por favor, selecciona un archivo"
  const Fallback := "Error al procesar el archivo"

  /** The form data the page posts. */
  datatype Request = Request(file: SelectedFile, priceType: string)

  /** What the fetch ends in: the response status and its JSON body, or an
      exception with its message. */
  datatype Answer = Answer(ok: bool, error: Option<string>, results: Option<UpdatePrices.Results>) | Thrown(message: string)

  /** The values the two radio buttons carry. */
  predicate IsRadioValue(v: string)
  {
    v == "minorista" || v == "mayorista"
  }

  /** The alert text for an answer that is not a success. */
  function FailureText(a: Answer): (t: string)
    requires !(a.Answer? && a.ok)
    ensures a.Thrown? ==> t == "Error: " + a.message
    ensures a.Answer? && Truthy(a.error) ==> t == "Error: " + a.error.value
    ensures a.Answer? && !Truthy(a.error) ==> t == "Error: " + Fallback
  {
    "Error: " + (if a.Thrown? then a.message else if Truthy(a.error) then a.error.value else Fallback)
  }

  class PriceForm {
    var file: Option<SelectedFile>
    var priceType: string
    var loading: bool
    var results: Option<UpdatePrices.Results>

    /** The price type is always one of the radio values. */
    predicate Valid()
      reads this
    {
      IsRadioValue(priceType)
    }

    /** The initial state: no file, minorista, not loading, no results. */
    constructor ()
      ensures file.None? && priceType == "minorista" && !loading && results.None?
      ensures Valid()
    {
      file := None;
      priceType := "minorista";
      loading := false;
      results := None;
    }

    /** `disabled={!file || loading}` on the submit button, negated: off
        while a request is in flight, on again once it ends. */
    function SubmitEnabled(): bool
      reads this
    {
      file.Some? && !loading
    }

    /** handleFileChange: nothing chosen changes nothing; a file that is not
        an Excel file is refused with an alert and changes nothing; an Excel
        file is kept and the old results are cleared. */
    method HandleFileChange(selected: Option<SelectedFile>) returns (alert: Option<string>)
      modifies this
      ensures selected.None? ==> alert.None? && file == old(file) && results == old(results)
      ensures selected.Some? && selected.value.mimeType !in ExcelTypes ==>
        alert == Some(NotExcel) && file == old(file) && results == old(results)
      ensures selected.Some? && selected.value.mimeType in ExcelTypes ==>
        alert.None? && file == selected && results.None?
      ensures priceType == old(priceType) && loading == old(loading)
    {
      alert := None;
      if selected.Some? {
        if selected.value.mimeType !in ExcelTypes {
          alert := Some(NotExcel);
          return;
        }
        file := selected;
        results := None;
      }
    }

    /** A radio button's onChange. */
    method SetPriceType(value: string)
      requires IsRadioValue(value)
      modifies this
      ensures priceType == value && file == old(file) && loading == old(loading) && results == old(results)
      ensures Valid()
    {
      priceType := value;
    }

    /** handleSubmit up to the fetch: with no file an alert and no request;
        otherwise loading, results cleared, and the file and price type
        posted. */
    method Submit() returns (request: Option<Request>, alert: Option<string>)
      modifies this
      ensures old(file).None? ==>
        request.None? && alert == Some(NoFile) && loading == old(loading) && results == old(results)
      ensures old(file).Some? ==>
        request == Some(Request(old(file).value, old(priceType))) && alert.None? && loading && results.None?
      ensures file == old(file) && priceType == old(priceType)
      ensures old(file).Some? ==> !SubmitEnabled()
    {
      if file.None? {
        return None, Some(NoFile);
      }
      loading := true;
      results := None;
      request := Some(Request(file.value, priceType));
      alert := None;
    }

    /** handleSubmit after the fetch: a success stores the results, any
        failure alerts, and the `finally` clears loading either way. */
    method Complete(answer: Answer) returns (alert: Option<string>)
      modifies this
      ensures !loading
      ensures answer.Answer? && answer.ok ==> alert.None? && results == answer.results
      ensures !(answer.Answer? && answer.ok) ==> alert == Some(FailureText(answer)) && results == old(results)
      ensures file == old(file) && priceType == old(priceType)
      ensures SubmitEnabled() <==> file.Some?
    {
      alert := None;
      if answer.Answer? && answer.ok {
        results := answer.results;
      } else {
        alert := Some(FailureText(answer));
      }
      loading := false;
    }

    /** handleReset: back to the initial file, results and price type. */
    method HandleReset()
      modifies this
      ensures file.None? && results.None? && priceType == "minorista" && loading == old(loading)
      ensures Valid()
    {
      file := None;
      results := None;
      priceType := "minorista";
    }
  }

  /** A whole submit: with a file, the request carries a price type the
      endpoint accepts, and loading ends false on success and failure
      alike; the results are the endpoint's on success and none
      otherwise. */
  method SubmitRound(form: PriceForm, answer: Answer) returns (request: Option<Request>)
    requires form.Valid()
    modifies form
    ensures old(form.file).Some? ==>
      && request.Some?
      && UpdatePrices.ParsePriceType(Some(request.value.priceType)).Some?
      && !form.loading
      && form.results == (if answer.Answer? && answer.ok then answer.results else None)
    ensures old(form.file).None? ==> request.None? && form.loading == old(form.loading) && form.results == old(form.results)
    ensures form.file == old(form.file) && form.Valid()
  {
    var alert;
    request, alert := form.Submit();
    if request.Some? {
      alert := form.Complete(answer);
    }
  }
}
