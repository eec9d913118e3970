/** The member-statistics pipeline: drop the last backup record, keep the members created
    after the start date, extract each, then derive the form name, the website flag and the
    signup channel, and clear signup dates before the formation date. */
module MemberStats {
  import opened Wrappers
  import opened Seqs
  import opened Dates
  import opened Members
  import Forms

  /** One row of the output table. `signUpDate` is None where the date was cleared. */
  datatype MemberRow = MemberRow(
    localGroup: Option<string>,
    signUpDate: Option<Date>,
    signUpForm: Option<string>,
    signUpWebsite: Option<string>,
    formName: string,
    hasWebsite: bool,
    channel: Channel)

  /** The ways a run aborts. */
  datatype StatsError =
    | UnparseableDate(text: string)        // the date parser rejects a signup date
    | EmptyTable                           // no member kept: the empty table has no sign_up_date column
    | Catalog(error: Forms.CatalogError)   // building the form catalog failed
    | EmptyCatalog                         // no catalog row: the empty table has no identifier column

  /** Date parsing (a library call) and the per-member submission-history fetch
      (a network call keyed by the member's submissions link) are parameters. */
  type DateParser = string -> Option<Date>
  type History = string -> seq<Submission>

  /** `members[0:-1]`: every record but the last. */
  function Visited(members: seq<Member>): (vs: seq<Member>)
    ensures vs <= members
    ensures |vs| == if |members| == 0 then 0 else |members| - 1
  {
    if |members| == 0 then [] else members[..|members| - 1]
  }

  /** The parsed date part of a member's creation timestamp. */
  function CreatedOn(m: Member, parseDate: DateParser): Option<Date>
  {
    parseDate(DatePart(m.createdDate))
  }

  /** A member the loop keeps: its creation date parses and is strictly after `startDate`. */
  predicate IsKept(m: Member, startDate: Date, parseDate: DateParser)
  {
    CreatedOn(m, parseDate).Some? && Before(startDate, CreatedOn(m, parseDate).value)
  }

  /** The members the loop keeps, in input order. */
  function Kept(vs: seq<Member>, startDate: Date, parseDate: DateParser): (ks: seq<Member>)
    ensures |ks| <= |vs|
    ensures forall m :: m in ks <==> m in vs && IsKept(m, startDate, parseDate)
    decreases |vs|
  {
    if |vs| == 0 then []
    else
      var last := vs[|vs| - 1];
      assert vs == vs[..|vs| - 1] + [last];
      Kept(vs[..|vs| - 1], startDate, parseDate) + if IsKept(last, startDate, parseDate) then [last] else []
  }

  /** Keeping preserves input order: it distributes over concatenation. */
  lemma {:induction false} KeptAppend(a: seq<Member>, b: seq<Member>, startDate: Date, parseDate: DateParser)
    ensures Kept(a + b, startDate, parseDate) == Kept(a, startDate, parseDate) + Kept(b, startDate, parseDate)
    decreases |b|
  {
    if |b| == 0 {
      assert a + b == a;
      assert Kept(a, startDate, parseDate) + [] == Kept(a, startDate, parseDate);
    } else {
      var b', last := b[..|b| - 1], b[|b| - 1];
      assert (a + b)[..|a + b| - 1] == a + b';
      assert (a + b)[|a + b| - 1] == last;
      KeptAppend(a, b', startDate, parseDate);
      ConcatAssoc(Kept(a, startDate, parseDate), Kept(b', startDate, parseDate),
                  if IsKept(last, startDate, parseDate) then [last] else []);
    }
  }

  /** The loop over the visited records: the first unparseable date aborts the run;
      members on or before `startDate` are skipped; the rest are extracted, in order. */
  function Collect(vs: seq<Member>, startDate: Date, parseDate: DateParser, history: History)
    : (r: Result<seq<ExtractedRecord>, StatsError>)
    ensures r.Ok? ==> |r.value| <= |vs|
    ensures r.Ok? ==> forall k :: 0 <= k < |r.value| ==> parseDate(r.value[k].signUpDate).Some?
    decreases |vs|
  {
    if |vs| == 0 then Ok([])
    else
      match Collect(vs[..|vs| - 1], startDate, parseDate, history)
      case Err(e) => Err(e)
      case Ok(records) =>
        var m := vs[|vs| - 1];
        match CreatedOn(m, parseDate)
        case None => Err(UnparseableDate(DatePart(m.createdDate)))
        case Some(d) =>
          if !Before(startDate, d) then Ok(records)
          else Ok(records + [ExtractData(m, history(m.submissionsHref))])
  }

  /** The loop fails exactly when some visited date does not parse; otherwise it yields
      the extraction of each kept member, in order. */
  lemma {:induction false} CollectSpec(vs: seq<Member>, startDate: Date, parseDate: DateParser, history: History)
    ensures Collect(vs, startDate, parseDate, history).Ok? <==>
      forall i :: 0 <= i < |vs| ==> CreatedOn(vs[i], parseDate).Some?
    ensures Collect(vs, startDate, parseDate, history).Ok? ==>
      var records, ks := Collect(vs, startDate, parseDate, history).value, Kept(vs, startDate, parseDate);
      |records| == |ks| &&
      forall k :: 0 <= k < |ks| ==> records[k] == ExtractData(ks[k], history(ks[k].submissionsHref))
    decreases |vs|
  {
    if |vs| > 0 {
      var init := vs[..|vs| - 1];
      CollectSpec(init, startDate, parseDate, history);
      assert forall i :: 0 <= i < |init| ==> init[i] == vs[i];
    }
  }

  /** An abort in a prefix of the records is the abort of the whole loop. */
  lemma {:induction false} CollectErrPrefix(vs: seq<Member>, n: nat, startDate: Date, parseDate: DateParser, history: History)
    requires n <= |vs| && Collect(vs[..n], startDate, parseDate, history).Err?
    ensures Collect(vs, startDate, parseDate, history) == Collect(vs[..n], startDate, parseDate, history)
    decreases |vs|
  {
    if n < |vs| {
      assert vs[..|vs| - 1][..n] == vs[..n];
      CollectErrPrefix(vs[..|vs| - 1], n, startDate, parseDate, history);
    } else {
      assert vs[..n] == vs;
    }
  }

  /** The derived columns of one extracted record whose signup date parsed to `date`. */
  function DeriveRow(r: ExtractedRecord, date: Date, formMapping: map<string, string>): (row: MemberRow)
    ensures row.localGroup == r.localGroup && row.signUpForm == r.signUpForm &&
            row.signUpWebsite == r.signUpWebsite
    ensures row.signUpDate.None? <==> Before(date, FORMATION_DATE)
    ensures row.signUpDate.Some? ==> row.signUpDate == Some(date)
    ensures !row.hasWebsite <==> r.signUpWebsite == None || r.signUpWebsite == Some("none")
    ensures row.channel == Classify(row.formName, row.hasWebsite, date)
  {
    var formName := MapSignupForm(r.signUpForm, formMapping);
    var hasWebsite := HasWebsite(r.signUpWebsite);
    MemberRow(r.localGroup,
              if Before(date, FORMATION_DATE) then None else Some(date),
              r.signUpForm, r.signUpWebsite, formName, hasWebsite,
              Classify(formName, hasWebsite, date))
  }

  /** The catalog can serve as a lookup table: its identifier keys are distinct. */
  ghost predicate CatalogUsable(forms: seq<Forms.Form>)
  {
    Forms.Flatten(forms).Ok? ==> Forms.DistinctIdentifiers(Forms.Flatten(forms).value)
  }

  /** The table the pipeline produces from the backup records, the start date and the
      fetched forms, or the reason it aborts. */
  function Stats(members: seq<Member>, startDate: Date, parseDate: DateParser, history: History,
                 forms: seq<Forms.Form>): (r: Result<seq<MemberRow>, StatsError>)
    requires CatalogUsable(forms)
    ensures r.Ok? ==> 1 <= |r.value| <= |members| - 1
    ensures r.Ok? ==> forall k :: 0 <= k < |r.value| && r.value[k].signUpDate.Some? ==>
      !Before(r.value[k].signUpDate.value, FORMATION_DATE)
  {
    match Collect(Visited(members), startDate, parseDate, history)
    case Err(e) => Err(e)
    case Ok(records) =>
      if |records| == 0 then Err(EmptyTable)
      else
        match Forms.Flatten(forms)
        case Err(e) => Err(Catalog(e))
        case Ok(catalog) =>
          if |catalog| == 0 then Err(EmptyCatalog)
          else
            var formMapping := Forms.FormMapping(catalog);
            Ok(seq(|records|, k requires 0 <= k < |records| =>
              DeriveRow(records[k], parseDate(records[k].signUpDate).value, formMapping)))
  }

  /** The last record is never processed: whatever it holds, the result is the same. */
  lemma StatsIgnoresLastRecord(members: seq<Member>, a: Member, b: Member, startDate: Date,
                               parseDate: DateParser, history: History, forms: seq<Forms.Form>)
    requires CatalogUsable(forms)
    ensures Stats(members + [a], startDate, parseDate, history, forms) ==
            Stats(members + [b], startDate, parseDate, history, forms)
  {
    assert Visited(members + [a]) == members == Visited(members + [b]);
  }

  /** A run succeeds exactly when every visited creation date parses, at least one member
      is kept, every form identifier has a `:` and there is at least one identifier;
      the errors come in that order. */
  lemma StatsOutcome(members: seq<Member>, startDate: Date, parseDate: DateParser,
                     history: History, forms: seq<Forms.Form>)
    requires CatalogUsable(forms)
    ensures var vs := Visited(members);
      var allParse := forall i :: 0 <= i < |vs| ==> CreatedOn(vs[i], parseDate).Some?;
      var r := Stats(members, startDate, parseDate, history, forms);
      && (r.Err? && r.error.UnparseableDate? <==> !allParse)
      && (r == Err(EmptyTable) <==> allParse && |Kept(vs, startDate, parseDate)| == 0)
      && (r.Err? && r.error.Catalog? <==>
            allParse && |Kept(vs, startDate, parseDate)| > 0 && !Forms.WellFormed(forms))
      && (r == Err(EmptyCatalog) <==>
            allParse && |Kept(vs, startDate, parseDate)| > 0 && Forms.WellFormed(forms) &&
            Forms.IdentifierCount(forms) == 0)
      && (r.Ok? <==>
            allParse && |Kept(vs, startDate, parseDate)| > 0 && Forms.WellFormed(forms) &&
            Forms.IdentifierCount(forms) > 0)
  {
    CollectSpec(Visited(members), startDate, parseDate, history);
    CollectErrors(Visited(members), startDate, parseDate, history);
    Forms.FlattenOkIff(forms);
    if Forms.Flatten(forms).Ok? {
      Forms.FlattenLength(forms);
    }
  }

  /** The loop only ever aborts with an unparseable date. */
  lemma {:induction false} CollectErrors(vs: seq<Member>, startDate: Date, parseDate: DateParser, history: History)
    ensures Collect(vs, startDate, parseDate, history).Err? ==>
      Collect(vs, startDate, parseDate, history).error.UnparseableDate?
    decreases |vs|
  {
    if |vs| > 0 {
      CollectErrors(vs[..|vs| - 1], startDate, parseDate, history);
    }
  }

  /** The table has one row per kept member, so between one row and all records but the last. */
  lemma StatsRowCount(members: seq<Member>, startDate: Date, parseDate: DateParser,
                      history: History, forms: seq<Forms.Form>)
    requires CatalogUsable(forms)
    requires Stats(members, startDate, parseDate, history, forms).Ok?
    ensures var rows := Stats(members, startDate, parseDate, history, forms).value;
      |rows| == |Kept(Visited(members), startDate, parseDate)| && 1 <= |rows| <= |members| - 1
  {
    CollectSpec(Visited(members), startDate, parseDate, history);
  }

  /** Row `k` belongs to the `k`-th kept member: a member created strictly after `startDate`,
      whose local group, form and referrer are carried over; its form name, website flag and
      channel follow the rules applied to the parsed date; and its date is cleared exactly
      when it precedes the formation date, the row itself staying in the table. */
  lemma StatsRowAt(members: seq<Member>, startDate: Date, parseDate: DateParser,
                   history: History, forms: seq<Forms.Form>, k: nat)
    requires CatalogUsable(forms)
    requires Stats(members, startDate, parseDate, history, forms).Ok?
    requires k < |Stats(members, startDate, parseDate, history, forms).value|
    ensures var rows := Stats(members, startDate, parseDate, history, forms).value;
      var ks := Kept(Visited(members), startDate, parseDate);
      k < |ks| &&
      var m, row := ks[k], rows[k];
      var catalog := Forms.Flatten(forms).value;
      var (form, website) := ExtractSignupForm(history(m.submissionsHref));
      && CreatedOn(m, parseDate).Some?
      && var d := CreatedOn(m, parseDate).value;
      && Before(startDate, d)
      && row.localGroup == LocalGroup(m.customFields)
      && row.signUpForm == form
      && row.signUpWebsite == website
      && row.formName == MapSignupForm(form, Forms.FormMapping(catalog))
      && row.hasWebsite == HasWebsite(website)
      && row.channel == Classify(row.formName, row.hasWebsite, d)
      && (row.signUpDate.None? <==> Before(d, FORMATION_DATE))
      && (row.signUpDate.Some? ==> row.signUpDate.value == d)
  {
    var vs := Visited(members);
    CollectSpec(vs, startDate, parseDate, history);
    var ks := Kept(vs, startDate, parseDate);
    assert ks[k] in ks;
  }

  /** The loop of `get_member_stats` over `members[0:-1]`: parse each creation date, skip
      members created on or before `startDate`, extract the rest in order. */
  method ProcessMembers(visited: seq<Member>, startDate: Date, parseDate: DateParser, history: History)
    returns (r: Result<seq<ExtractedRecord>, StatsError>)
    ensures r == Collect(visited, startDate, parseDate, history)
  {
    var processed: seq<ExtractedRecord> := [];
    for i := 0 to |visited|
      invariant Collect(visited[..i], startDate, parseDate, history) == Ok(processed)
    {
      var m := visited[i];
      assert visited[..i + 1][..i] == visited[..i];
      var created := parseDate(DatePart(m.createdDate));
      if created.None? {
        CollectErrPrefix(visited, i + 1, startDate, parseDate, history);
        return Err(UnparseableDate(DatePart(m.createdDate)));
      }
      if !Before(startDate, created.value) {
        continue;
      }
      processed := processed + [ExtractData(m, history(m.submissionsHref))];
    }
    assert visited[..|visited|] == visited;
    return Ok(processed);
  }

  /** The column assignments of `get_member_stats`, row by row: parse the signup date,
      look up the form name, flag a website referrer, classify the channel using the parsed
      date, and only then clear a date before the formation date. */
  method DeriveColumns(processed: seq<ExtractedRecord>, parseDate: DateParser, formMapping: map<string, string>)
    returns (rows: seq<MemberRow>)
    requires forall k :: 0 <= k < |processed| ==> parseDate(processed[k].signUpDate).Some?
    ensures |rows| == |processed|
    ensures forall k :: 0 <= k < |processed| ==>
      rows[k] == DeriveRow(processed[k], parseDate(processed[k].signUpDate).value, formMapping)
  {
    rows := [];
    for i := 0 to |processed|
      invariant |rows| == i
      invariant forall k :: 0 <= k < i ==>
        rows[k] == DeriveRow(processed[k], parseDate(processed[k].signUpDate).value, formMapping)
    {
      var record := processed[i];
      var signUpDate := parseDate(record.signUpDate).value;
      var formName := MapSignupForm(record.signUpForm, formMapping);
      var hasWebsite := HasWebsite(record.signUpWebsite);
      var channel := Classify(formName, hasWebsite, signUpDate);
      var shownDate := if Before(signUpDate, FORMATION_DATE) then None else Some(signUpDate);
      rows := rows + [MemberRow(record.localGroup, shownDate, record.signUpForm, record.signUpWebsite,
                                formName, hasWebsite, channel)];
    }
  }

  /** `get_member_stats` on already-loaded records and an already-fetched forms list. */
  method GetMemberStats(members: seq<Member>, startDate: Date, parseDate: DateParser,
                        history: History, forms: seq<Forms.Form>)
    returns (r: Result<seq<MemberRow>, StatsError>)
    requires CatalogUsable(forms)
    ensures r == Stats(members, startDate, parseDate, history, forms)
  {
    var visited := if |members| == 0 then [] else members[..|members| - 1];
    assert visited == Visited(members);
    var collected := ProcessMembers(visited, startDate, parseDate, history);
    if collected.Err? {
      return Err(collected.error);
    }
    var processed := collected.value;
    if |processed| == 0 {
      return Err(EmptyTable);
    }
    var catalog := Forms.GetForms(forms);
    if catalog.Err? {
      return Err(Catalog(catalog.error));
    }
    if |catalog.value| == 0 {
      return Err(EmptyCatalog);
    }
    var formMapping := Forms.FormMapping(catalog.value);
    var rows := DeriveColumns(processed, parseDate, formMapping);
    assert rows == seq(|processed|, k requires 0 <= k < |processed| =>
      DeriveRow(processed[k], parseDate(processed[k].signUpDate).value, formMapping));
    return Ok(rows);
  }
}
