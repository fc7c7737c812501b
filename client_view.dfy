/**
  The page the browser client drives (frontend/app.js), as one object: the part of
  the DOM the handlers read and write, the requests they issue and the alerts they
  raise, and the panels `showTab` hides and shows.

  Each handler is one atomic step. A network exchange is a parameter: the reply a
  loader receives (`None` when the fetch or the JSON decoding fails). A reply is
  ignored when the handler issues no request. The order in which concurrent replies
  arrive, and a reply that lands after a later tab switch, are not modelled.
 */
module ClientView {
  import opened Wrappers
  import opened Ledger
  import opened Queries
  import opened ClientRules

  /** The `start-date`, `end-date` and `stats-destination` controls. */
  datatype StatsInput = StatsInput(startDate: string, endDate: string, destination: string)

  /**
    The DOM content the handlers touch. A select's value is held in its form: the
    write-off form's `category` and `itemName` are `category-select` and `name-select`,
    and `statsInput.destination` is `stats-destination`.
   */
  datatype Dom = Dom(
    writeoffForm: WriteoffForm,
    tmcForm: TmcForm,
    statsInput: StatsInput,
    categoryOptions: seq<SelectOption>,
    nameOptions: seq<SelectOption>,
    destinationOptions: seq<SelectOption>,
    tmcList: Listing,
    writeoffsList: Listing,
    statsResult: Option<Stats>,
    writeoffMessage: Notice,
    tmcMessage: Notice)

  class View {
    var dom: Dom
    /** Every request issued, oldest first. */
    var requests: seq<Request>
    /** Every `alert` raised, oldest first. */
    var alerts: seq<string>
    /** The ids of the `.tab` panels, in document order. */
    const panelIds: seq<string>
    /** Whether each panel carries the `hidden` class. */
    const hidden: array<bool>

    ghost predicate Valid()
      reads this
    {
      hidden.Length == |panelIds|
    }

    constructor (ids: seq<string>, initial: Dom, initiallyHidden: seq<bool>)
      requires |initiallyHidden| == |ids|
      ensures Valid() && fresh(hidden)
      ensures panelIds == ids && hidden[..] == initiallyHidden
      ensures dom == initial && requests == [] && alerts == []
    {
      panelIds := ids;
      dom := initial;
      requests := [];
      alerts := [];
      hidden := new bool[|initiallyHidden|](i requires 0 <= i < |initiallyHidden| => initiallyHidden[i]);
    }

    /**
      `loadCategories`: fetch the categories and repaint `category-select`, whose value
      falls back to the placeholder's; on failure, an error message instead.
     */
    method LoadCategories(reply: Option<seq<string>>)
      modifies this
      ensures requests == old(requests) + [Get(ApiBase + "/categories")]
      ensures alerts == old(alerts)
      ensures reply.None? ==> dom == old(dom).(writeoffMessage := Notice(CategoriesFailed, Failure))
      ensures reply.Some? ==>
                && Offers(dom.categoryOptions, CategoryPlaceholder, reply.value)
                && dom == old(dom).(categoryOptions := dom.categoryOptions,
                                    writeoffForm := old(dom.writeoffForm).(category := ""))
    {
      requests := requests + [Get(ApiBase + "/categories")];
      match reply
      case None =>
        dom := dom.(writeoffMessage := Notice(CategoriesFailed, Failure));
      case Some(categories) =>
        var options := FillOptions(CategoryPlaceholder, categories);
        dom := dom.(categoryOptions := options, writeoffForm := dom.writeoffForm.(category := ""));
    }

    /**
      `loadNames`: with no category selected, `name-select` holds only its placeholder
      and nothing is fetched; otherwise the names of the category are fetched and shown.
     */
    method LoadNames(reply: Option<seq<string>>)
      modifies this
      ensures alerts == old(alerts)
      ensures var category := old(dom.writeoffForm.category);
        if category == "" then
          && requests == old(requests)
          && dom == old(dom).(nameOptions := [SelectOption("", NamePlaceholder)],
                              writeoffForm := old(dom.writeoffForm).(itemName := ""))
        else
          && requests == old(requests) + [Get(NamesUrl(category))]
          && (reply.None? ==> dom == old(dom).(writeoffMessage := Notice(NamesFailed, Failure)))
          && (reply.Some? ==>
                && Offers(dom.nameOptions, NamePlaceholder, reply.value)
                && dom == old(dom).(nameOptions := dom.nameOptions,
                                    writeoffForm := old(dom.writeoffForm).(itemName := "")))
    {
      var category := dom.writeoffForm.category;
      if category == "" {
        dom := dom.(nameOptions := [SelectOption("", NamePlaceholder)],
                    writeoffForm := dom.writeoffForm.(itemName := ""));
        return;
      }
      requests := requests + [Get(NamesUrl(category))];
      match reply
      case None =>
        dom := dom.(writeoffMessage := Notice(NamesFailed, Failure));
      case Some(names) =>
        var options := FillOptions(NamePlaceholder, names);
        dom := dom.(nameOptions := options, writeoffForm := dom.writeoffForm.(itemName := ""));
    }

    /** `loadDestinations`: fetch and repaint `stats-destination`; a failure is only logged. */
    method LoadDestinations(reply: Option<seq<string>>)
      modifies this
      ensures requests == old(requests) + [Get(ApiBase + "/destinations")]
      ensures alerts == old(alerts)
      ensures reply.None? ==> dom == old(dom)
      ensures reply.Some? ==>
                && Offers(dom.destinationOptions, DestinationPlaceholder, reply.value)
                && dom == old(dom).(destinationOptions := dom.destinationOptions,
                                    statsInput := old(dom.statsInput).(destination := ""))
    {
      requests := requests + [Get(ApiBase + "/destinations")];
      if reply.Some? {
        var options := FillOptions(DestinationPlaceholder, reply.value);
        dom := dom.(destinationOptions := options, statsInput := dom.statsInput.(destination := ""));
      }
    }

    /** `loadAllTMC`: fetch the catalog and render it into `tmc-list`. */
    method LoadAllTmc(reply: Option<seq<TmcItem>>)
      modifies this
      ensures requests == old(requests) + [Get(ApiBase + "/tmc/all")]
      ensures alerts == old(alerts)
      ensures dom == old(dom).(tmcList := dom.tmcList)
      ensures reply.None? ==> dom.tmcList == LoadFailed(ListFailed)
      ensures reply.Some? ==> ShowsItems(dom.tmcList, reply.value)
    {
      requests := requests + [Get(ApiBase + "/tmc/all")];
      match reply
      case None =>
        dom := dom.(tmcList := LoadFailed(ListFailed));
      case Some(items) =>
        var view := RenderTmcList(items);
        dom := dom.(tmcList := view);
    }

    /** `loadWriteoffs`: fetch the write-offs and render them into `writeoffs-list`. */
    method LoadWriteoffs(reply: Option<seq<WriteOff>>)
      modifies this
      ensures requests == old(requests) + [Get(ApiBase + "/writeoffs/all")]
      ensures alerts == old(alerts)
      ensures dom == old(dom).(writeoffsList := dom.writeoffsList)
      ensures reply.None? ==> dom.writeoffsList == LoadFailed(ListFailed)
      ensures reply.Some? ==> ShowsWriteoffs(dom.writeoffsList, reply.value)
    {
      requests := requests + [Get(ApiBase + "/writeoffs/all")];
      match reply
      case None =>
        dom := dom.(writeoffsList := LoadFailed(ListFailed));
      case Some(ws) =>
        var view := RenderWriteoffList(ws);
        dom := dom.(writeoffsList := view);
    }

    /**
      `submitWriteoff`: an incomplete form is refused on the spot with no request;
      a complete one is posted, and the reply decides the message, the reset and the
      loaders returned for the caller to run. As written, only the status and whether
      the body parses decide success (WriteoffFeedbackAsWritten).
     */
    method SubmitWriteoff(reply: PostReply) returns (reloads: seq<Load>)
      modifies this
      ensures alerts == old(alerts)
      ensures var f := old(dom.writeoffForm);
        if !WriteoffFormComplete(f) then
          && requests == old(requests)
          && dom == old(dom).(writeoffMessage := Notice(FillRequired, Failure))
          && reloads == []
        else
          var fb := WriteoffFeedbackAsWritten(reply);
          && requests == old(requests) + [Post(ApiBase + "/writeoff", WriteoffParams(f))]
          && dom == old(dom).(writeoffMessage := fb.notice,
                              writeoffForm := if fb.resetForm then EmptyWriteoffForm else f)
          && reloads == fb.reloads
    {
      var f := dom.writeoffForm;
      if !WriteoffFormComplete(f) {
        dom := dom.(writeoffMessage := Notice(FillRequired, Failure));
        return [];
      }
      requests := requests + [Post(ApiBase + "/writeoff", WriteoffParams(f))];
      var fb := WriteoffFeedbackAsWritten(reply);
      dom := dom.(writeoffMessage := fb.notice, writeoffForm := if fb.resetForm then EmptyWriteoffForm else f);
      reloads := fb.reloads;
    }

    /**
      `submitWriteoff` with the reply judged by WriteoffFeedback, which also reads the
      error field of a status-200 reply, so that a refused write-off keeps the form
      and shows the server's reason.
     */
    method SubmitWriteoffChecked(reply: PostReply) returns (reloads: seq<Load>)
      modifies this
      ensures alerts == old(alerts)
      ensures var f := old(dom.writeoffForm);
        if !WriteoffFormComplete(f) then
          && requests == old(requests)
          && dom == old(dom).(writeoffMessage := Notice(FillRequired, Failure))
          && reloads == []
        else
          var fb := WriteoffFeedback(reply);
          && requests == old(requests) + [Post(ApiBase + "/writeoff", WriteoffParams(f))]
          && dom == old(dom).(writeoffMessage := fb.notice,
                              writeoffForm := if fb.resetForm then EmptyWriteoffForm else f)
          && reloads == fb.reloads
    {
      var f := dom.writeoffForm;
      if !WriteoffFormComplete(f) {
        dom := dom.(writeoffMessage := Notice(FillRequired, Failure));
        return [];
      }
      requests := requests + [Post(ApiBase + "/writeoff", WriteoffParams(f))];
      var fb := WriteoffFeedback(reply);
      dom := dom.(writeoffMessage := fb.notice, writeoffForm := if fb.resetForm then EmptyWriteoffForm else f);
      reloads := fb.reloads;
    }

    /**
      `addTMCItem`: an incomplete form (any field falsy, so also a 0 amount, price or
      quantity) is refused with no request; a complete one is posted and the status
      decides the message, the reset and the loaders returned.
     */
    method AddTmcItem(reply: PostReply) returns (reloads: seq<Load>)
      modifies this
      ensures alerts == old(alerts)
      ensures var f := old(dom.tmcForm);
        if !TmcFormComplete(f) then
          && requests == old(requests)
          && dom == old(dom).(tmcMessage := Notice(FillAll, Failure))
          && reloads == []
        else
          var fb := TmcFeedback(reply);
          && requests == old(requests) + [Post(ApiBase + "/tmc", TmcParams(f))]
          && dom == old(dom).(tmcMessage := fb.notice, tmcForm := if fb.resetForm then EmptyTmcForm else f)
          && reloads == fb.reloads
    {
      var f := dom.tmcForm;
      if !TmcFormComplete(f) {
        dom := dom.(tmcMessage := Notice(FillAll, Failure));
        return [];
      }
      requests := requests + [Post(ApiBase + "/tmc", TmcParams(f))];
      var fb := TmcFeedback(reply);
      dom := dom.(tmcMessage := fb.notice, tmcForm := if fb.resetForm then EmptyTmcForm else f);
      reloads := fb.reloads;
    }

    /**
      `loadStats`: without both dates, an alert and no request; otherwise the
      statistics URL is fetched and the summary shown, or an alert on failure.
     */
    method LoadStats(reply: Option<Stats>)
      modifies this
      ensures var input := old(dom.statsInput);
        if input.startDate == "" || input.endDate == "" then
          && requests == old(requests) && dom == old(dom)
          && alerts == old(alerts) + [ChoosePeriod]
        else
          && requests == old(requests) + [Get(StatsUrl(input.startDate, input.endDate, input.destination))]
          && (reply.None? ==> dom == old(dom) && alerts == old(alerts) + [StatsFailed])
          && (reply.Some? ==> dom == old(dom).(statsResult := reply) && alerts == old(alerts))
    {
      var input := dom.statsInput;
      var request := StatsRequest(input.startDate, input.endDate, input.destination);
      if request.None? {
        alerts := alerts + [ChoosePeriod];
        return;
      }
      requests := requests + [request.value];
      if reply.None? {
        alerts := alerts + [StatsFailed];
      } else {
        dom := dom.(statsResult := reply);
      }
    }

    /**
      `showTab(name)`: hide every panel, then show the first one whose id is
      `name + "-tab"`, if any; the loaders of that panel are returned.
     */
    method ShowTab(name: string) returns (loads: seq<Load>)
      requires Valid()
      modifies hidden
      ensures forall k :: 0 <= k < hidden.Length ==> hidden[k] == (FirstIndex(panelIds, PanelId(name)) != Some(k))
      ensures loads == TabLoads(name)
    {
      for i := 0 to hidden.Length
        invariant forall k :: 0 <= k < i ==> hidden[k]
      {
        hidden[i] := true;
      }
      var target := FirstIndex(panelIds, PanelId(name));
      if target.Some? {
        hidden[target.value] := false;
      }
      loads := TabLoads(name);
    }

    /**
      A click on a navigation button: the panel its trimmed caption names is shown, and the
      loaders run are showTab's followed by the handler's own; other captions do nothing.
     */
    method ClickNav(caption: string) returns (loads: seq<Load>)
      requires Valid()
      modifies hidden
      ensures NavTarget(caption).None? ==> loads == [] && hidden[..] == old(hidden[..])
      ensures NavTarget(caption).Some? ==>
                var (name, extra) := NavTarget(caption).value;
                && loads == TabLoads(name) + extra
                && forall k :: 0 <= k < hidden.Length ==> hidden[k] == (FirstIndex(panelIds, PanelId(name)) != Some(k))
    {
      match NavTarget(caption)
      case None =>
        loads := [];
      case Some((name, extra)) =>
        var shown := ShowTab(name);
        loads := shown + extra;
    }
  }
}
