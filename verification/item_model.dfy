/** The to-do item document and its schema. */
module ItemModel {
  import opened Wrappers
  import opened JsStrings
  import opened Schema

  datatype Item = Item(title: string, description: string, completed: bool)

  /** The fields handed to `create`; `None` is a field left undefined. */
  datatype ItemDraft = ItemDraft(title: Option<string>, description: Option<string>, completed: Option<bool>)

  const MaxTitle := 100
  const MaxDescription := 500

  /** A required string with a maximum length in UTF-16 code units; `required` reports first. */
  function BoundedString(path: string, value: Option<string>, max: nat, missing: string, tooLong: string): (r: seq<FieldError>)
    ensures |r| <= 1
    ensures r == [] <==> Filled(value) && Utf16Length(value.value) <= max
  {
    if !Filled(value) then [FieldError(path, missing)]
    else if Utf16Length(value.value) > max then [FieldError(path, tooLong)]
    else []
  }

  /** `Item.create`: a title of 1 to 100 and a description of 1 to 500 characters; not completed unless said. */
  function NewItem(d: ItemDraft): (r: Result<Item>)
    ensures r.Ok? <==>
      && Filled(d.title) && Utf16Length(d.title.value) <= MaxTitle
      && Filled(d.description) && Utf16Length(d.description.value) <= MaxDescription
    ensures r.Ok? ==> r.value == Item(d.title.value, d.description.value, d.completed.GetOr(false))
    ensures r.Err? ==> StartsWith(r.error, FailureHead("Item"))
  {
    var a := BoundedString("title", d.title, MaxTitle, "Please provide a title",
                           "Title cannot be more than 100 characters");
    var b := BoundedString("description", d.description, MaxDescription, "Please provide a description",
                           "Description cannot be more than 500 characters");
    var errs := a + b;
    assert |errs| == |a| + |b|;
    var item := Item(d.title.GetOr(""), d.description.GetOr(""), d.completed.GetOr(false));
    Validated("Item", errs, item)
  }

  /** A missing `completed` flag defaults to false; a 100-character title is accepted, 101 is not. */
  lemma ItemDefaultsAndBounds(title: string, description: string)
    requires 1 <= |title| && |description| == 1
    requires forall k :: 0 <= k < |title| ==> title[k] == 'a'
    requires forall k :: 0 <= k < |description| ==> description[k] == 'b'
    ensures |title| <= 100 ==> NewItem(ItemDraft(Some(title), Some(description), None)) == Ok(Item(title, description, false))
    ensures |title| > 100 ==> NewItem(ItemDraft(Some(title), Some(description), None)).Err?
  {
    assert Utf16Length(title) == |title|;
    assert Utf16Length(description) == 1;
  }
}
