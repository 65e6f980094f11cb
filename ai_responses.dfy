/**
 * The response object of the AI "generate image" action: four fields that
 * set_response_data fills from an array and get_response_data hands back.
 *
 * The base response class is not part of this model; of it, only the fields
 * its constructor is given and the model field (declared there, assumed to
 * accept any value) are kept.
 */
module AiResponses {
  import opened Results

  /** A value of a PHP array entry, as far as these fields care. */
  datatype Value =
    | Null
    | Text(s: string)
    | FileRef(id: int)   // a stored_file object
    | List(items: seq<Value>)

  /** The keys the response data always has, in the order the setter assigns them. */
  const DraftFileKey: string := "draftfile"
  const RevisedPromptKey: string := "revisedprompt"
  const SourceUrlKey: string := "sourceurl"
  const ModelKey: string := "model"

  /** The action name every response of this class carries. */
  const ActionName: string := "generate_image"

  /** The PHP TypeError raised by assigning a value of the wrong type to a typed property. */
  datatype TypeError = TypeError(property: string)

  /** $response[$key] ?? null: the entry, or null when it is absent. */
  function Entry(response: map<string, Value>, key: string): Value {
    if key in response then response[key] else Null
  }

  /** What ?\stored_file accepts. */
  predicate FitsFile(v: Value) {
    v.Null? || v.FileRef?
  }

  /** What ?string accepts (numbers and booleans, which PHP would coerce, are not modelled). */
  predicate FitsString(v: Value) {
    v.Null? || v.Text?
  }

  /** The first property, in assignment order, that the array's entry does not fit. */
  function FirstMisfit(response: map<string, Value>): Option<string> {
    if !FitsFile(Entry(response, DraftFileKey)) then Some(DraftFileKey)
    else if !FitsString(Entry(response, RevisedPromptKey)) then Some(RevisedPromptKey)
    else if !FitsString(Entry(response, SourceUrlKey)) then Some(SourceUrlKey)
    else None
  }

  /** The response data an array leads to: its four entries, each null when absent. */
  function Projected(response: map<string, Value>): (r: map<string, Value>)
    ensures r.Keys == {DraftFileKey, RevisedPromptKey, SourceUrlKey, ModelKey}
  {
    map[DraftFileKey := Entry(response, DraftFileKey),
        RevisedPromptKey := Entry(response, RevisedPromptKey),
        SourceUrlKey := Entry(response, SourceUrlKey),
        ModelKey := Entry(response, ModelKey)]
  }

  /** The four keys carry the array's own values, and a key it lacks carries null. */
  lemma ProjectedEntries(response: map<string, Value>, key: string)
    requires key in {DraftFileKey, RevisedPromptKey, SourceUrlKey, ModelKey}
    ensures key in response ==> Projected(response)[key] == response[key]
    ensures key !in response ==> Projected(response)[key] == Null
  {
  }

  /** Keys other than the four make no difference. */
  lemma ExtraKeysIgnored(response: map<string, Value>, extra: map<string, Value>)
    requires forall k :: k in extra ==> k !in {DraftFileKey, RevisedPromptKey, SourceUrlKey, ModelKey}
    ensures Projected(response + extra) == Projected(response)
    ensures FirstMisfit(response + extra) == FirstMisfit(response)
  {
  }

  /** Setting the data one got back changes nothing: the round trip is stable. */
  lemma ProjectedIdempotent(response: map<string, Value>)
    ensures Projected(Projected(response)) == Projected(response)
    ensures FirstMisfit(Projected(response)) == FirstMisfit(response)
  {
  }

  /** An array whose entries fit leads to data whose entries fit as well. */
  lemma ProjectedFits(response: map<string, Value>)
    requires FirstMisfit(response).None?
    ensures var r := Projected(response);
      FitsFile(r[DraftFileKey]) && FitsString(r[RevisedPromptKey]) && FitsString(r[SourceUrlKey])
  {
  }

  /** response_generate_image: the base class's fields and the three of its own. */
  class ResponseGenerateImage {
    const success: bool
    const actionname: string
    const errorcode: int
    const error: string
    const errormessage: string

    var draftfile: Value
    var revisedprompt: Value
    var sourceurl: Value
    var model: Value

    /** Each typed property holds a value of its type. */
    predicate Valid()
      reads this
    {
      FitsFile(draftfile) && FitsString(revisedprompt) && FitsString(sourceurl)
    }

    /** The constructor: the action name is fixed, and the three own fields start out null. */
    constructor (success: bool, errorcode: int, error: string, errormessage: string)
      ensures this.success == success && this.errorcode == errorcode
      ensures this.error == error && this.errormessage == errormessage
      ensures actionname == "generate_image"
      ensures draftfile == Null && revisedprompt == Null && sourceurl == Null
      ensures Valid()
    {
      this.success := success;
      this.actionname := ActionName;
      this.errorcode := errorcode;
      this.error := error;
      this.errormessage := errormessage;
      draftfile := Null;
      revisedprompt := Null;
      sourceurl := Null;
    }

    /** get_response_data: the four fields under their keys. */
    function GetResponseData(): (r: map<string, Value>)
      reads this
      ensures r.Keys == {DraftFileKey, RevisedPromptKey, SourceUrlKey, ModelKey}
      ensures r[DraftFileKey] == draftfile && r[RevisedPromptKey] == revisedprompt
      ensures r[SourceUrlKey] == sourceurl && r[ModelKey] == model
    {
      map[DraftFileKey := draftfile, RevisedPromptKey := revisedprompt,
          SourceUrlKey := sourceurl, ModelKey := model]
    }

    /** Handing the getter's data back to the setter is accepted and reproduces it. */
    lemma GetThenSetStable()
      requires Valid()
      ensures FirstMisfit(GetResponseData()).None?
      ensures Projected(GetResponseData()) == GetResponseData()
    {
    }

    /**
     * set_response_data: assign the four fields from the array in order, each
     * null when its key is absent. An entry of the wrong type raises a
     * TypeError at its property, after the properties before it were assigned.
     */
    method SetResponseData(response: map<string, Value>) returns (err: Option<TypeError>)
      requires Valid()
      modifies this
      ensures Valid()
      ensures err.None? <==> FirstMisfit(response).None?
      ensures err.Some? ==> err.value.property == FirstMisfit(response).value
      ensures err.None? ==> GetResponseData() == Projected(response)
      ensures err == Some(TypeError(DraftFileKey)) ==> unchanged(this)
      ensures err == Some(TypeError(RevisedPromptKey)) ==>
        && draftfile == Entry(response, DraftFileKey)
        && revisedprompt == old(revisedprompt) && sourceurl == old(sourceurl) && model == old(model)
      ensures err == Some(TypeError(SourceUrlKey)) ==>
        && draftfile == Entry(response, DraftFileKey) && revisedprompt == Entry(response, RevisedPromptKey)
        && sourceurl == old(sourceurl) && model == old(model)
    {
      var v := Entry(response, DraftFileKey);
      if !FitsFile(v) {
        return Some(TypeError(DraftFileKey));
      }
      draftfile := v;
      v := Entry(response, RevisedPromptKey);
      if !FitsString(v) {
        return Some(TypeError(RevisedPromptKey));
      }
      revisedprompt := v;
      v := Entry(response, SourceUrlKey);
      if !FitsString(v) {
        return Some(TypeError(SourceUrlKey));
      }
      sourceurl := v;
      model := Entry(response, ModelKey);
      return None;
    }
  }
}
