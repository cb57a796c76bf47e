/**
  The three-slide onboarding screen: a bounded slide index that "next"
  advances and that finishes by navigating home, a skip action, and what
  the screen renders for the current index.
 */
module Onboarding {
  import opened Wrappers
  import opened Strings

  datatype Slide = Slide(id: string, title: string, description: string)

  const SLIDES: seq<Slide> := [
    Slide("1", "Tìm đồ thất lạc dễ dàng", "Đăng tin tìm kiếm món đồ bị mất của bạn ngay lập tức."),
    Slide("2", "Kết nối cộng đồng", "Giúp đỡ người khác bằng cách báo cáo đồ vật bạn nhặt được."),
    Slide("3", "An toàn & Tin cậy", "Xác minh danh tính để đảm bảo an toàn cho mọi giao dịch.")
  ]

  const HOME := "/(tabs)/home"

  /** The index and navigation after one press of "next" at index i. */
  function Next(i: nat): (r: (nat, Option<string>))
    ensures i < |SLIDES| ==> r.0 < |SLIDES|
    ensures r.1.Some? <==> i >= |SLIDES| - 1
    ensures r.1.Some? ==> r.0 == i && r.1.value == HOME
    ensures r.1.None? ==> r.0 == i + 1
  {
    if i < |SLIDES| - 1 then (i + 1, None) else (i, Some(HOME))
  }

  /** The index after n presses from the first slide, and how many of them navigated home. */
  function AfterPresses(n: nat): (nat, nat)
  {
    if n == 0 then (0, 0)
    else
      var (i, homes) := AfterPresses(n - 1);
      var (j, nav) := Next(i);
      (j, if nav.Some? then homes + 1 else homes)
  }

  /**
    Pressing "next" n times from the first slide reaches slide min(n, 2), and
    every press beyond the last slide navigates home instead of moving.
   */
  lemma {:induction false} AfterPressesSpec(n: nat)
    ensures AfterPresses(n).0 == (if n < |SLIDES| then n else |SLIDES| - 1)
    ensures AfterPresses(n).1 == (if n < |SLIDES| then 0 else n - (|SLIDES| - 1))
    ensures AfterPresses(n).0 < |SLIDES|
  {
    if n > 0 {
      AfterPressesSpec(n - 1);
    }
  }

  /** How many of the flags are set. */
  function CountTrue(flags: seq<bool>): nat
  {
    if |flags| == 0 then 0 else (if flags[0] then 1 else 0) + CountTrue(flags[1..])
  }

  /** `currentSlideIndex === index` for each indicator. */
  function Indicators(current: nat): seq<bool>
  {
    seq(|SLIDES|, k => k == current)
  }

  lemma {:induction false} CountTrueOne(flags: seq<bool>, k: nat)
    requires k < |flags|
    requires forall j :: 0 <= j < |flags| ==> (flags[j] <==> j == k)
    ensures CountTrue(flags) == 1
  {
    if k == 0 {
      assert forall j :: 0 <= j < |flags[1..]| ==> !flags[1..][j];
      CountTrueNone(flags[1..]);
    } else {
      CountTrueOne(flags[1..], k - 1);
    }
  }

  lemma {:induction false} CountTrueNone(flags: seq<bool>)
    requires forall j :: 0 <= j < |flags| ==> !flags[j]
    ensures CountTrue(flags) == 0
  {
    if |flags| > 0 {
      CountTrueNone(flags[1..]);
    }
  }

  /** Exactly one indicator is active, the one at the current index. */
  lemma ExactlyOneIndicator(current: nat)
    requires current < |SLIDES|
    ensures |Indicators(current)| == |SLIDES|
    ensures Indicators(current)[current]
    ensures CountTrue(Indicators(current)) == 1
  {
    CountTrueOne(Indicators(current), current);
  }

  class OnboardingScreen {
    var currentSlideIndex: nat

    ghost predicate Valid()
      reads this
    {
      currentSlideIndex < |SLIDES|
    }

    /** The screen opens on the first slide. */
    constructor ()
      ensures Valid() && currentSlideIndex == 0
      ensures VisibleSlides() == [SLIDES[0]] && VisibleSlides()[0].title == "Tìm đồ thất lạc dễ dàng"
    {
      currentSlideIndex := 0;
    }

    /** `handleNext`: advance while not on the last slide; on the last one navigate home instead. */
    method HandleNext() returns (navigateTo: Option<string>)
      requires Valid()
      modifies this
      ensures Valid()
      ensures old(currentSlideIndex) < |SLIDES| - 1 ==>
                currentSlideIndex == old(currentSlideIndex) + 1 && navigateTo == None
      ensures old(currentSlideIndex) == |SLIDES| - 1 ==>
                currentSlideIndex == old(currentSlideIndex) && navigateTo == Some(HOME)
      ensures (currentSlideIndex, navigateTo) == Next(old(currentSlideIndex))
    {
      if currentSlideIndex < |SLIDES| - 1 {
        currentSlideIndex := currentSlideIndex + 1;
        navigateTo := None;
      } else {
        navigateTo := Some(HOME);
      }
    }

    /** `handleSkip`: always navigate home; the index is left alone. */
    method HandleSkip() returns (navigateTo: string)
      ensures navigateTo == HOME
    {
      navigateTo := HOME;
    }

    /** The list renders `[SLIDES[currentSlideIndex]]`: exactly the current slide. */
    function VisibleSlides(): (r: seq<Slide>)
      requires Valid()
      reads this
      ensures |r| == 1 && r[0] in SLIDES && r[0].id == [DigitChar(currentSlideIndex + 1)]
    {
      [SLIDES[currentSlideIndex]]
    }

    /** The skip button is offered only before the last slide. */
    function SkipOffered(): (offered: bool)
      requires Valid()
      reads this
      ensures offered <==> currentSlideIndex != |SLIDES| - 1
    {
      currentSlideIndex < |SLIDES| - 1
    }
  }

  /** One press of "next" from the first slide shows the second slide's title, as the screen's test expects. */
  lemma NextShowsSecondTitle()
    ensures Next(0) == (1, None) && SLIDES[Next(0).0].title == "Kết nối cộng đồng"
  {
  }
}
