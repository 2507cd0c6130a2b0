/** The two worked comparisons: a term matched by two packages of
    different size picks the one with the lower unit price, and a term no
    deal matches yields no pick, a zero total and no store entry. */
module CompareExamples {
  import opened Wrappers
  import opened Text
  import opened Seqs
  import opened Deals
  import opened Compare

  const Breast: Deal := Deal("food-lion-24503", "Chicken Breast", None, 4.99, Some(1.0), Some("lb"), "Weekly Ad", "")
  const Whole: Deal := Deal("food-lion-24503", "Whole Chicken", None, 8.99, Some(4.0), Some("lb"), "Weekly Ad", "")
  const Sample: seq<Deal> := [Breast, Whole]

  lemma BreastMatchesChicken()
    ensures MatchesTerm("chicken", Breast)
  {
    var l := Lower(Breast.item);
    assert l[..7] == "chicken" by {
      assert l[0] == 'c' && l[1] == 'h' && l[2] == 'i' && l[3] == 'c' && l[4] == 'k' && l[5] == 'e' && l[6] == 'n';
    }
    assert OccursAt(l, "chicken", 0);
  }

  lemma WholeMatchesChicken()
    ensures MatchesTerm("chicken", Whole)
  {
    var l := Lower(Whole.item);
    assert l[6..13] == "chicken" by {
      assert l[6] == 'c' && l[7] == 'h' && l[8] == 'i' && l[9] == 'c' && l[10] == 'k' && l[11] == 'e' && l[12] == 'n';
    }
    assert OccursAt(l, "chicken", 6);
  }

  lemma ChickenKeys()
    ensures KeyFor(Breast) == SortKey(4.99, 4.99)
    ensures KeyFor(Whole) == SortKey(8.99 / 4.0, 8.99)
  {
  }

  /** Whole Chicken (8.99 for 4 lb) beats Chicken Breast (4.99 for 1 lb). */
  lemma ChickenPicksWhole()
    ensures PickFor("chicken", Sample) == Some(Whole)
  {
    BreastMatchesChicken();
    WholeMatchesChicken();
    ChickenKeys();
    var cs := Candidates("chicken", Sample);
    assert Filter(Sample, Matcher("chicken")) == [Breast, Whole] by {
      assert Sample[1..] == [Whole];
      assert Sample[1..][1..] == [];
    }
    assert cs == [Breast, Whole];
    assert BestIndex(cs) == 1 by {
      assert cs[1..] == [Whole];
    }
  }

  const Missing: string := "nonexistent-item"

  lemma MissingParses()
    ensures Wanted(Missing) == [Missing]
  {
    assert IsWantedTerm(Missing);
    WantedOfJoin([Missing]);
    assert Join([Missing], ',') == Missing;
  }

  /** A term longer than an item cannot occur in it. */
  lemma TooLongToMatch(w: string, d: Deal)
    requires |d.item| < |w|
    ensures !MatchesTerm(w, d)
  {
  }

  lemma MissingUnmatched()
    ensures PickFor(Missing, Sample) == None
  {
    TooLongToMatch(Missing, Breast);
    TooLongToMatch(Missing, Whole);
    forall d | d in Sample
      ensures !MatchesTerm(Missing, d)
    {
    }
  }

  lemma NoPicksForMissing()
    ensures Picks([Missing], Sample) == []
  {
    MissingUnmatched();
    assert Picker(Sample)(Missing) == None;
    assert [Missing][1..] == [];
    assert Somes([Missing], Picker(Sample)) == [] + Somes([], Picker(Sample));
  }

  /** A term no deal matches: nothing found, a total of 0 and no store entry. */
  lemma MissingItemFindsNothing()
    ensures CompareItems(Missing, Sample).Success?
    ensures CompareItems(Missing, Sample).value.totalItemsFound == 0
    ensures CompareItems(Missing, Sample).value.estimatedTotal == 0.0
    ensures CompareItems(Missing, Sample).value.byStore == []
  {
    MissingParses();
    NoPicksForMissing();
    assert CompareItems(Missing, Sample) == Success(CompareResponse([Missing], [], 0, 0.0, []));
  }

  lemma BlankSplit()
    ensures Split(" , ", ',') == [" ", " "]
  {
    assert IndexOf(" , ", ',') == 1;
    assert " , "[..1] == " ";
    assert " , "[2..] == " ";
    assert IndexOf(" ", ',') == 1;
  }

  lemma BlankWanted()
    ensures Wanted(" , ") == []
  {
    BlankSplit();
    var parts := Split(" , ", ',');
    assert Strip(" ") == [];
    assert parts[1..] == [" "];
    assert parts[1..][1..] == [];
  }

  /** A query of commas and blanks is not the missing-parameter error: it
      succeeds with nothing requested. */
  lemma BlankTermsRequestNothing()
    ensures CompareItems(" , ", Sample) == Success(CompareResponse([], [], 0, 0.0, []))
  {
    BlankWanted();
  }
}
