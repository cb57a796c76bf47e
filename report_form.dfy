/**
  The list and validation logic that the missing-item and found-item report
  screens share: toggling a tag, removing a picked image by index, appending
  a picked image under the five-image cap, and the required-field check.
 */
module ReportForm {

  /** Most images a report holds. */
  const MAX_IMAGES := 5

  // ---- tags ----

  /** `tags.filter(t => t !== tag)`. */
  function Without(tags: seq<string>, tag: string): (r: seq<string>)
    ensures tag !in r
    ensures multiset(r) == multiset(tags)[tag := 0]
  {
    if |tags| == 0 then []
    else
      assert tags == [tags[0]] + tags[1..];
      if tags[0] == tag then Without(tags[1..], tag)
      else [tags[0]] + Without(tags[1..], tag)
  }

  /** Filtering works piece by piece, so the tags that stay keep their order. */
  lemma {:induction false} WithoutConcat(a: seq<string>, b: seq<string>, tag: string)
    ensures Without(a + b, tag) == Without(a, tag) + Without(b, tag)
  {
    if |a| > 0 {
      assert (a + b)[1..] == a[1..] + b;
      WithoutConcat(a[1..], b, tag);
    } else {
      assert a + b == b;
    }
  }

  /** Filtering out a tag that is absent changes nothing. */
  lemma {:induction false} WithoutAbsent(tags: seq<string>, tag: string)
    requires tag !in tags
    ensures Without(tags, tag) == tags
  {
    if |tags| > 0 {
      WithoutAbsent(tags[1..], tag);
    }
  }

  /** `toggleTag`: drop every occurrence of a selected tag, otherwise append it. */
  function ToggleTag(tags: seq<string>, tag: string): (r: seq<string>)
    ensures tag in r <==> tag !in tags
    ensures forall t :: t != tag ==> multiset(r)[t] == multiset(tags)[t]
  {
    if tag in tags then Without(tags, tag) else tags + [tag]
  }

  /**
    Toggling flips membership; a present tag loses every occurrence, an absent
    one is appended at the end; and either way the other tags are exactly the
    old ones, in the old order.
   */
  lemma ToggleTagSpec(tags: seq<string>, tag: string)
    ensures tag in ToggleTag(tags, tag) <==> tag !in tags
    ensures tag in tags ==> multiset(ToggleTag(tags, tag)) == multiset(tags)[tag := 0]
    ensures tag !in tags ==> ToggleTag(tags, tag) == tags + [tag]
    ensures Without(ToggleTag(tags, tag), tag) == Without(tags, tag)
  {
    if tag in tags {
      var r := Without(tags, tag);
      WithoutAbsent(r, tag);
    } else {
      WithoutConcat(tags, [tag], tag);
    }
  }

  /** Toggling an absent tag twice restores the list. */
  lemma ToggleAbsentTwice(tags: seq<string>, tag: string)
    requires tag !in tags
    ensures ToggleTag(ToggleTag(tags, tag), tag) == tags
  {
    WithoutConcat(tags, [tag], tag);
    WithoutAbsent(tags, tag);
  }

  /** Toggling a present tag twice moves one copy of it to the end. */
  lemma TogglePresentTwice(tags: seq<string>, tag: string)
    requires tag in tags
    ensures ToggleTag(ToggleTag(tags, tag), tag) == Without(tags, tag) + [tag]
  {
  }

  // ---- images ----

  /**
    `images.splice(index, 1)` on a copy: a negative index counts from the end
    (clamped at 0), an index at or past the end removes nothing.
   */
  function RemoveAt(images: seq<string>, index: int): (r: seq<string>)
    ensures |r| == if 0 < |images| && index < |images| then |images| - 1 else |images|
    ensures multiset(r) <= multiset(images)
  {
    var start := if index < 0 then (if |images| + index < 0 then 0 else |images| + index)
                 else if index > |images| then |images| else index;
    var deleteCount := if start < |images| then 1 else 0;
    assert images == images[..start] + images[start..start + deleteCount] + images[start + deleteCount..];
    images[..start] + images[start + deleteCount..]
  }

  /** For an index the image list renders, exactly that image goes and the rest keep their order. */
  lemma RemoveAtValid(images: seq<string>, index: int)
    requires 0 <= index < |images|
    ensures |RemoveAt(images, index)| == |images| - 1
    ensures RemoveAt(images, index)[..index] == images[..index]
    ensures RemoveAt(images, index)[index..] == images[index + 1..]
    ensures multiset(RemoveAt(images, index)) + multiset{images[index]} == multiset(images)
  {
    var r := RemoveAt(images, index);
    assert images == images[..index] + [images[index]] + images[index + 1..];
    assert r == images[..index] + images[index + 1..];
  }

  /** An index past the end removes nothing; a negative one removes from the end. */
  lemma RemoveAtOutOfRange(images: seq<string>, index: int)
    ensures index >= |images| ==> RemoveAt(images, index) == images
    ensures -|images| <= index < 0 ==> RemoveAt(images, index) == RemoveAt(images, |images| + index)
  {
  }

  /** What the image picker hands back: whether it was cancelled, and the picked URIs. */
  datatype PickerResult = PickerResult(canceled: bool, assets: seq<string>)

  /**
    The tail of `handleChoosePhoto` / `handleTakePhoto`: without permission an
    alert and nothing else; a cancelled or empty pick changes nothing; otherwise
    the first asset is appended if fewer than `MAX_IMAGES` are held.
   */
  function AfterPick(images: seq<string>, granted: bool, result: PickerResult): (r: seq<string>)
    ensures images <= r && |r| <= |images| + 1
    ensures |images| <= MAX_IMAGES ==> |r| <= MAX_IMAGES
  {
    if !granted then images
    else if result.canceled || |result.assets| == 0 then images
    else if |images| < MAX_IMAGES then images + [result.assets[0]]
    else images
  }

  /** A pick appends exactly the first asset, and only under the cap; the list never passes the cap. */
  lemma AfterPickSpec(images: seq<string>, granted: bool, result: PickerResult)
    ensures var r := AfterPick(images, granted, result);
            && (r != images <==>
                  granted && !result.canceled && |result.assets| > 0 && |images| < MAX_IMAGES)
            && (r != images ==> r == images + [result.assets[0]])
            && (|images| <= MAX_IMAGES ==> |r| <= MAX_IMAGES)
  {
  }

  /** Removing an image keeps the list under the cap. */
  lemma RemoveAtKeepsCap(images: seq<string>, index: int)
    requires |images| <= MAX_IMAGES
    ensures |RemoveAt(images, index)| <= MAX_IMAGES
  {
  }

  // ---- validation ----

  /** `!itemName || !description || !location || !date`, negated: every field non-empty. */
  predicate RequiredFilled(itemName: string, description: string, location: string, date: string)
  {
    itemName != "" && description != "" && location != "" && date != ""
  }
}
