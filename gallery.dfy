/**
 * The page: the `#gallery` container that `create_employee` appends cards to, and the element
 * children of `document.body`, to whose end `create_dynamic_modal` appends an overlay and from
 * whose end the overlay's close button removes the last element.
 */
module Gallery {
  import opened Outcomes
  import opened Employee

  /** An element child of the body: the overlay built from a card's dataset, or any other element. */
  datatype Node = ModalContainer(dataset: CardAttributes) | PageElement(id: string)

  /**
   * The cards that `loop_over_employees` appends for `results`: one per record, in order, up
   * to the first record whose formatting throws.
   */
  function BuiltCards(results: seq<PersonRecord>): (cards: seq<CardAttributes>)
    ensures |cards| <= |results|
    ensures forall i :: 0 <= i < |cards| ==> Attributes(results[i]) == Ok(cards[i])
    ensures |cards| < |results| ==> Attributes(results[|cards|]).Err?
    decreases |results|
  {
    if results == [] then []
    else match Attributes(results[0])
      case Err(_) => []
      case Ok(card) => [card] + BuiltCards(results[1..])
  }

  /** How `loop_over_employees` ends: normally, or with the first record's formatting error. */
  function RenderOutcome(results: seq<PersonRecord>): (o: Outcome)
    ensures o.Completed? <==> forall i :: 0 <= i < |results| ==> Attributes(results[i]).Ok?
    ensures o.Threw? ==>
      exists k :: 0 <= k < |results| && Attributes(results[k]) == Err(o.fault) &&
        forall i :: 0 <= i < k ==> Attributes(results[i]).Ok?
  {
    var cards := BuiltCards(results);
    if |cards| == |results| then Completed else Threw(Attributes(results[|cards|]).fault)
  }

  /** When every record formats, there is one card per record, in input order. */
  lemma {:induction false} AllCardsBuilt(results: seq<PersonRecord>)
    requires forall i :: 0 <= i < |results| ==> Attributes(results[i]).Ok?
    ensures |BuiltCards(results)| == |results|
    ensures forall i :: 0 <= i < |results| ==> BuiltCards(results)[i] == Attributes(results[i]).value
  {
  }

  /** When record `k` is the first that fails, exactly the cards of records 0 to k-1 are built. */
  lemma {:induction false} CardsUpToFirstFailure(results: seq<PersonRecord>, k: nat)
    requires k < |results| && Attributes(results[k]).Err?
    requires forall i :: 0 <= i < k ==> Attributes(results[i]).Ok?
    ensures |BuiltCards(results)| == k
    ensures forall i :: 0 <= i < k ==> BuiltCards(results)[i] == Attributes(results[i]).value
    ensures RenderOutcome(results) == Threw(Attributes(results[k]).fault)
  {
  }

  /** `after` is `before` followed by the cards of the first `n` records. */
  ghost predicate Appended(before: seq<CardAttributes>, after: seq<CardAttributes>,
                           results: seq<PersonRecord>, n: nat)
    requires n <= |results|
  {
    && |after| == |before| + n && after[..|before|] == before
    && forall j :: 0 <= j < n ==> Ok(after[|before| + j]) == Attributes(results[j])
  }

  lemma AppendedIsBuilt(before: seq<CardAttributes>, after: seq<CardAttributes>,
                        results: seq<PersonRecord>, n: nat)
    requires n <= |results| && Appended(before, after, results, n)
    requires |BuiltCards(results)| == n
    ensures after == before + BuiltCards(results)
  {
  }

  /** Appending the next record's card extends `Appended` by one record. */
  lemma AppendedStep(before: seq<CardAttributes>, after: seq<CardAttributes>,
                     results: seq<PersonRecord>, n: nat)
    requires n < |results| && Appended(before, after, results, n)
    requires Attributes(results[n]).Ok?
    ensures Appended(before, after + [Attributes(results[n]).value], results, n + 1)
  {
    var next := after + [Attributes(results[n]).value];
    assert next[..|before|] == after[..|before|];
    forall j | 0 <= j < n + 1
      ensures Ok(next[|before| + j]) == Attributes(results[j])
    {
      if j < n {
        assert next[|before| + j] == after[|before| + j];
      }
    }
  }

  /** The number of overlays among the body's element children. */
  function ModalCount(body: seq<Node>): nat
    decreases |body|
  {
    if body == [] then 0
    else ModalCount(body[..|body| - 1]) + (if body[|body| - 1].ModalContainer? then 1 else 0)
  }

  /** No overlay is open, or exactly one is and it is the body's last child. */
  ghost predicate OnlyOverlayIsLast(body: seq<Node>)
  {
    ModalCount(body) == 0 || (ModalCount(body) == 1 && body[|body| - 1].ModalContainer?)
  }

  /** The page state the script works on. */
  class Page {
    /** The children of `#gallery`: one attribute set per card. */
    var gallery: seq<CardAttributes>
    /** The element children of `document.body`. */
    var body: seq<Node>

    constructor (initialBody: seq<Node>)
      ensures gallery == [] && body == initialBody
    {
      gallery := [];
      body := initialBody;
    }

    /**
     * `create_employee`: build the card's attributes, then append the card to the gallery.
     * A formatting error is thrown before the append, leaving the gallery as it was.
     */
    method CreateEmployee(employee: PersonRecord) returns (o: Outcome)
      modifies this
      ensures body == old(body)
      ensures Attributes(employee).Ok? ==> o == Completed && gallery == old(gallery) + [Attributes(employee).value]
      ensures Attributes(employee).Err? ==> o == Threw(Attributes(employee).fault) && gallery == old(gallery)
    {
      var card := Attributes(employee);
      if card.Err? {
        return Threw(card.fault);
      }
      gallery := gallery + [card.value];
      o := Completed;
    }

    /**
     * `loop_over_employees`: create the employees in index order. A thrown error leaves the
     * loop, so the gallery gains the cards of the records before the failing one.
     */
    method LoopOverEmployees(results: seq<PersonRecord>) returns (o: Outcome)
      modifies this
      ensures gallery == old(gallery) + BuiltCards(results)
      ensures o == RenderOutcome(results)
      ensures body == old(body)
    {
      ghost var start := gallery;
      var i := 0;
      while i < |results|
        invariant 0 <= i <= |results|
        invariant Appended(start, gallery, results, i)
        invariant body == old(body)
      {
        ghost var before := gallery;
        o := CreateEmployee(results[i]);
        if o.Threw? {
          CardsUpToFirstFailure(results, i);
          AppendedIsBuilt(start, gallery, results, i);
          return;
        }
        AppendedStep(start, before, results, i);
        i := i + 1;
      }
      AllCardsBuilt(results);
      AppendedIsBuilt(start, gallery, results, i);
      o := Completed;
    }

    /** `create_dynamic_modal`: the overlay for `dataset` becomes the body's last child. */
    method CreateDynamicModal(dataset: CardAttributes)
      modifies this
      ensures body == old(body) + [ModalContainer(dataset)]
      ensures ModalCount(body) == ModalCount(old(body)) + 1
      ensures gallery == old(gallery)
    {
      body := body + [ModalContainer(dataset)];
      assert body[..|body| - 1] == old(body);
    }

    /**
     * The close button's handler: `document.body.lastElementChild.remove()`. It removes the
     * last element whatever it is; with no element child it throws.
     */
    method CloseModal() returns (o: Outcome)
      modifies this
      ensures old(body) == [] ==> o == Threw(NoLastChild) && body == old(body)
      ensures old(body) != [] ==> o == Completed && body == old(body)[..|old(body)| - 1]
      ensures old(body) != [] && old(body)[|old(body)| - 1].ModalContainer? ==>
        ModalCount(body) == ModalCount(old(body)) - 1
      ensures old(body) != [] && OnlyOverlayIsLast(old(body)) ==> ModalCount(body) == 0
      ensures gallery == old(gallery)
    {
      if body == [] {
        return Threw(NoLastChild);
      }
      body := body[..|body| - 1];
      o := Completed;
    }

    /** A click on card `i`: the handler bound by `loop_over_cards` opens that card's overlay. */
    method SelectCard(i: nat)
      requires i < |gallery|
      modifies this
      ensures body == old(body) + [ModalContainer(old(gallery)[i])]
      ensures ModalCount(body) == ModalCount(old(body)) + 1
      ensures ModalCount(old(body)) == 0 ==> OnlyOverlayIsLast(body)
      ensures gallery == old(gallery)
    {
      CreateDynamicModal(gallery[i]);
    }

    /**
     * Opening card `i` and then closing the overlay restores the body's children exactly and
     * leaves the gallery unchanged, so a later card can be opened and dismissed the same way.
     */
    method SelectAndDismiss(i: nat) returns (o: Outcome)
      requires i < |gallery|
      modifies this
      ensures o == Completed
      ensures body == old(body) && gallery == old(gallery)
    {
      SelectCard(i);
      o := CloseModal();
    }
  }

  /** While no overlay is open the body holds only page elements; opening one keeps the bound. */
  lemma OverlayOpenedOnce(body: seq<Node>, dataset: CardAttributes)
    requires ModalCount(body) == 0
    ensures forall i :: 0 <= i < |body| ==> body[i].PageElement?
    ensures ModalCount(body + [ModalContainer(dataset)]) == 1
    ensures OnlyOverlayIsLast(body + [ModalContainer(dataset)])
  {
    assert (body + [ModalContainer(dataset)])[..|body|] == body;
  }
}
