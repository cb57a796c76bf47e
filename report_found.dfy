/**
  The found-item report screen: two ways to add a photo (gallery and camera)
  under the five-image cap, removing a photo, toggling tags, and a submit that
  only validates the text fields and then shows a spinner until a timer fires.
  No request is made.
 */
module ReportFound {
  import opened ReportForm

  /** Which fields the screen's text inputs write; the date is free text here. */
  datatype TextField = ItemName | Description | Location | DateFound

  /** A snapshot of the form. */
  datatype Form = Form(
    itemName: string, description: string, images: seq<string>, location: string,
    building: string, dateFound: string, selectedTags: seq<string>)

  /** The validation of `handleSubmit`: the four text fields, and nothing else. */
  predicate Accepts(f: Form)
  {
    RequiredFilled(f.itemName, f.description, f.location, f.dateFound)
  }

  /** A submit passes exactly when no text field is empty; photos are not checked although the label asks for one. */
  lemma AcceptsSpec(f: Form)
    ensures Accepts(f) <==> f.itemName != "" && f.description != "" && f.location != "" && f.dateFound != ""
    ensures Accepts(f) ==> Accepts(f.(images := []))
  {
  }

  /** The date is never parsed: any non-empty text, well-formed or not, is accepted. */
  lemma DateIsFreeText(f: Form, text: string)
    requires Accepts(f) && text != ""
    ensures Accepts(f.(dateFound := text))
  {
  }

  class FoundReport {
    var itemName: string
    var description: string
    var images: seq<string>
    var location: string
    var building: string
    var dateFound: string
    var selectedTags: seq<string>
    var isLoading: bool
    /** Timers set by accepted submits that have not fired yet. */
    var pendingTimers: nat

    ghost predicate Valid()
      reads this
    {
      |images| <= MAX_IMAGES && building == "CS1" && (isLoading ==> pendingTimers > 0)
    }

    function Snapshot(): Form
      reads this
    {
      Form(itemName, description, images, location, building, dateFound, selectedTags)
    }

    constructor ()
      ensures Valid()
      ensures Snapshot() == Form("", "", [], "", "CS1", "", [])
      ensures !isLoading && pendingTimers == 0
    {
      itemName, description, images, location := "", "", [], "";
      building, dateFound, selectedTags := "CS1", "", [];
      isLoading, pendingTimers := false, 0;
    }

    /** `onChangeText` of one of the text inputs. */
    method SetText(field: TextField, value: string)
      requires Valid()
      modifies this`itemName, this`description, this`location, this`dateFound
      ensures Valid()
      ensures Snapshot() == match field
        case ItemName => old(Snapshot()).(itemName := value)
        case Description => old(Snapshot()).(description := value)
        case Location => old(Snapshot()).(location := value)
        case DateFound => old(Snapshot()).(dateFound := value)
      ensures isLoading == old(isLoading) && pendingTimers == old(pendingTimers)
    {
      match field {
        case ItemName => itemName := value;
        case Description => description := value;
        case Location => location := value;
        case DateFound => dateFound := value;
      }
    }

    /** Gallery (`handleChoosePhoto`) and camera (`handleTakePhoto`) end the same way once permission and picker have answered. */
    method AddPhoto(granted: bool, result: PickerResult) returns (alerted: bool)
      requires Valid()
      modifies this`images
      ensures Valid()
      ensures alerted == !granted
      ensures Snapshot() == old(Snapshot()).(images := AfterPick(old(images), granted, result))
      ensures isLoading == old(isLoading) && pendingTimers == old(pendingTimers)
    {
      if !granted {
        return true;
      }
      alerted := false;
      if !result.canceled && |result.assets| > 0 {
        if |images| < MAX_IMAGES {
          images := images + [result.assets[0]];
        }
      }
    }

    /** `removeImage(index)`. */
    method RemoveImage(index: int)
      requires Valid()
      modifies this`images
      ensures Valid()
      ensures Snapshot() == old(Snapshot()).(images := RemoveAt(old(images), index))
      ensures isLoading == old(isLoading) && pendingTimers == old(pendingTimers)
    {
      images := RemoveAt(images, index);
    }

    /** `toggleTag(tag)`. */
    method ToggleTag(tag: string)
      requires Valid()
      modifies this`selectedTags
      ensures Valid()
      ensures Snapshot() == old(Snapshot()).(selectedTags := ReportForm.ToggleTag(old(selectedTags), tag))
      ensures isLoading == old(isLoading) && pendingTimers == old(pendingTimers)
    {
      selectedTags := ReportForm.ToggleTag(selectedTags, tag);
    }

    /**
      `handleSubmit`: an empty text field raises an alert and leaves everything
      as it was; otherwise the spinner starts and a timer is set.
     */
    method Submit() returns (accepted: bool)
      requires Valid()
      modifies this`isLoading, this`pendingTimers
      ensures Valid()
      ensures accepted == Accepts(old(Snapshot()))
      ensures accepted ==> isLoading && pendingTimers == old(pendingTimers) + 1
      ensures !accepted ==> isLoading == old(isLoading) && pendingTimers == old(pendingTimers)
      ensures Snapshot() == old(Snapshot())
    {
      if itemName == "" || description == "" || location == "" || dateFound == "" {
        return false;
      }
      isLoading := true;
      pendingTimers := pendingTimers + 1;
      accepted := true;
    }

    /** The 1500 ms timer fires: the spinner stops and the success alert shows. */
    method TimerFired()
      requires Valid() && pendingTimers > 0
      modifies this`isLoading, this`pendingTimers
      ensures Valid()
      ensures !isLoading && pendingTimers == old(pendingTimers) - 1
      ensures Snapshot() == old(Snapshot())
    {
      isLoading := false;
      pendingTimers := pendingTimers - 1;
    }
  }
}
