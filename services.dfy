/**
 * The services grid and its detail dialog (`Services`): at most one
 * selected service title. A card click selects its title, except the
 * "Content Creation" card, which scrolls to the examples section instead;
 * both close buttons clear the selection; the dialog is shown while the
 * selection is set.
 */
module Services {
  import opened Wrappers

  const ContentCreation := "Content Creation"

  /** Where the "Content Creation" card sends the browser. */
  const ExamplesAnchor := "#photo-video-examples"

  /** The nine card titles, in grid order. */
  const ServiceTitles: seq<string> := [
    "Social Media Management",
    ContentCreation,
    "Influencer Partnerships",
    "Events",
    "Campaigns & Partnerships",
    "Graphic Design",
    "Branding & Storytelling",
    "Digital Marketing",
    "Customer Engagement"
  ]

  /** JavaScript truthiness of a `string | null`: null and "" are falsy. */
  predicate Truthy(s: Option<string>)
  {
    s.Some? && s.value != ""
  }

  class ServiceSelection {
    var selectedService: Option<string>

    /** A selection, when there is one, is the title of a card other than "Content Creation". */
    ghost predicate Valid()
      reads this
    {
      selectedService.Some? ==>
        selectedService.value in ServiceTitles && selectedService.value != ContentCreation
    }

    constructor ()
      ensures Valid() && selectedService == None
    {
      selectedService := None;
    }

    /**
     * A click on the card titled `title`. The result is the location the
     * browser is sent to, if any: the "Content Creation" card navigates and
     * leaves the selection alone, every other card selects its title.
     */
    method ClickCard(title: string) returns (navigateTo: Option<string>)
      requires Valid() && title in ServiceTitles
      modifies this
      ensures Valid()
      ensures navigateTo.Some? <==> title == ContentCreation
      ensures navigateTo.Some? ==> navigateTo.value == ExamplesAnchor && selectedService == old(selectedService)
      ensures navigateTo.None? ==> selectedService == Some(title)
    {
      if title == ContentCreation {
        navigateTo := Some(ExamplesAnchor);
      } else {
        selectedService := Some(title);
        navigateTo := None;
      }
    }

    /** The "×" button and the "Close" button of the dialog. */
    method Close()
      modifies this
      ensures Valid() && selectedService == None
    {
      selectedService := None;
    }

    /** `{selectedService && (...)}`: the dialog is rendered exactly when a service is selected. */
    method DialogShown() returns (shown: bool)
      requires Valid()
      ensures shown <==> selectedService.Some?
    {
      TitlesNonEmpty();
      shown := Truthy(selectedService);
    }
  }

  /** No card has an empty title, so a selected title is never falsy. */
  lemma {:induction false} TitlesNonEmpty()
    ensures forall t :: t in ServiceTitles ==> t != ""
  {
    forall t | t in ServiceTitles ensures t != "" {
      var j :| 0 <= j < |ServiceTitles| && ServiceTitles[j] == t;
      assert |ServiceTitles[j]| > 0;
    }
  }

  /** Selecting one service and then another switches directly; closing clears; "Content Creation" never selects. */
  method SelectionScenario()
  {
    var s := new ServiceSelection();
    var nav := s.ClickCard(ContentCreation);
    assert nav == Some(ExamplesAnchor) && s.selectedService == None;
    nav := s.ClickCard("Events");
    assert s.selectedService == Some("Events");
    s.Close();
    nav := s.ClickCard("Graphic Design");
    assert s.selectedService == Some("Graphic Design");
    nav := s.ClickCard("Digital Marketing");
    assert s.selectedService == Some("Digital Marketing");
    nav := s.ClickCard(ContentCreation);
    assert s.selectedService == Some("Digital Marketing");
    s.Close();
    var shown := s.DialogShown();
    assert !shown;
  }
}
