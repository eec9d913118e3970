/** The form catalog: every form of the membership system flattened to one row
    per identifier, keyed by the part of the identifier after its `type:` prefix. */
module Forms {
  import opened Wrappers
  import opened Text
  import opened Seqs

  /** A form as the forms endpoint returns it; `creator` is the embedded creator object, kept opaque. */
  datatype Form = Form(
    name: string,
    title: string,
    identifiers: seq<string>,
    totalSubmissions: int,
    browserUrl: string,
    createdDate: string,
    modifiedDate: string,
    creator: string)

  /** One catalog row: a form's fields with one of its identifiers. */
  datatype CatalogRow = CatalogRow(
    name: string,
    title: string,
    identifier: string,
    totalSubmissions: int,
    browserUrl: string,
    createdDate: string,
    modifiedDate: string,
    creator: string)

  /** Indexing `[1]` into the split of an identifier without `:` raises IndexError. */
  datatype CatalogError = MissingSeparator(identifier: string)

  /** `identifier.split(':')[1]`: the second piece, or None where Python raises IndexError. */
  function IdentifierKey(identifier: string): (r: Option<string>)
    ensures r.None? <==> ':' !in identifier
    ensures r.Some? ==> ':' !in r.value
  {
    var parts := Split(identifier, ':');
    if |parts| > 1 then Some(parts[1]) else None
  }

  /** An identifier fails exactly when it has no `:`; otherwise its key is the text
      between the first `:` and the next one (or the end). */
  lemma IdentifierKeySpec(identifier: string)
    ensures IdentifierKey(identifier).None? <==> ':' !in identifier
    ensures IdentifierKey(identifier).Some? ==>
      var k := IndexOf(identifier, ':').value;
      ':' !in IdentifierKey(identifier).value &&
      IdentifierKey(identifier).value <= identifier[k + 1..] &&
      (':' in identifier[k + 1..] ==>
        identifier[k + 1 + |IdentifierKey(identifier).value|] == ':')
  {
    if ':' in identifier {
      var k := IndexOf(identifier, ':').value;
      FirstPiece(identifier[k + 1..], ':');
    }
  }

  /** For `t:x` with no `:` in `t` or `x`, the key is exactly `x`. */
  lemma {:induction false} TypedIdentifierKey(t: string, x: string)
    requires ':' !in t && ':' !in x
    ensures IdentifierKey(t + ":" + x) == Some(x)
  {
    assert t + ":" + x == Join([t, x], ':');
    SplitJoin([t, x], ':');
  }

  /** The row emitted for one identifier key of a form: every other field is the form's. */
  function RowFor(f: Form, key: string): CatalogRow
  {
    CatalogRow(f.name, f.title, key, f.totalSubmissions, f.browserUrl,
               f.createdDate, f.modifiedDate, f.creator)
  }

  /** The rows of form `f` for identifiers `ids`, in order; the first malformed identifier aborts. */
  function FormRows(f: Form, ids: seq<string>): (r: Result<seq<CatalogRow>, CatalogError>)
    ensures r.Ok? ==> |r.value| == |ids|
    ensures r.Err? ==> r.error.identifier in ids && ':' !in r.error.identifier
    decreases |ids|
  {
    if |ids| == 0 then Ok([])
    else
      match FormRows(f, ids[..|ids| - 1])
      case Err(e) => Err(e)
      case Ok(rows) =>
        match IdentifierKey(ids[|ids| - 1])
        case None => Err(MissingSeparator(ids[|ids| - 1]))
        case Some(key) => Ok(rows + [RowFor(f, key)])
  }

  /** The flattened catalog of `forms`: each form's rows, forms in input order. */
  function Flatten(forms: seq<Form>): (r: Result<seq<CatalogRow>, CatalogError>)
    ensures r.Err? ==> ':' !in r.error.identifier
    decreases |forms|
  {
    if |forms| == 0 then Ok([])
    else
      match Flatten(forms[..|forms| - 1])
      case Err(e) => Err(e)
      case Ok(rows) =>
        match FormRows(forms[|forms| - 1], forms[|forms| - 1].identifiers)
        case Err(e) => Err(e)
        case Ok(more) => Ok(rows + more)
  }

  /** Total number of identifiers over all forms. */
  function IdentifierCount(forms: seq<Form>): nat
    decreases |forms|
  {
    if |forms| == 0 then 0
    else IdentifierCount(forms[..|forms| - 1]) + |forms[|forms| - 1].identifiers|
  }

  /** Every identifier of every form has a `:`. */
  ghost predicate WellFormed(forms: seq<Form>)
  {
    forall i, j :: 0 <= i < |forms| && 0 <= j < |forms[i].identifiers| ==> ':' in forms[i].identifiers[j]
  }

  /** One more identifier: the form's rows grow by that identifier's row, or fail on it. */
  lemma FormRowsSnoc(f: Form, ids: seq<string>, n: nat)
    requires n < |ids| && FormRows(f, ids[..n]).Ok?
    ensures FormRows(f, ids[..n + 1]) ==
      match IdentifierKey(ids[n])
      case None => Err(MissingSeparator(ids[n]))
      case Some(key) => Ok(FormRows(f, ids[..n]).value + [RowFor(f, key)])
  {
    assert ids[..n + 1][..n] == ids[..n];
  }

  /** One more form: the catalog grows by that form's rows, or fails on it. */
  lemma FlattenSnoc(forms: seq<Form>, n: nat)
    requires n < |forms| && Flatten(forms[..n]).Ok?
    ensures Flatten(forms[..n + 1]) ==
      match FormRows(forms[n], forms[n].identifiers)
      case Err(e) => Err(e)
      case Ok(more) => Ok(Flatten(forms[..n]).value + more)
  {
    assert forms[..n + 1][..n] == forms[..n];
  }

  /** A form's rows: one per identifier, in identifier order, fields copied from the form;
      they fail exactly when some identifier has no `:`, naming such an identifier. */
  lemma {:induction false} FormRowsSpec(f: Form, ids: seq<string>)
    ensures FormRows(f, ids).Ok? <==> forall j :: 0 <= j < |ids| ==> ':' in ids[j]
    ensures FormRows(f, ids).Ok? ==>
      |FormRows(f, ids).value| == |ids| &&
      forall j :: 0 <= j < |ids| ==> FormRows(f, ids).value[j] == RowFor(f, IdentifierKey(ids[j]).value)
    ensures FormRows(f, ids).Err? ==>
      FormRows(f, ids).error.identifier in ids && ':' !in FormRows(f, ids).error.identifier
    decreases |ids|
  {
    if |ids| > 0 {
      var init := ids[..|ids| - 1];
      FormRowsSpec(f, init);
      IdentifierKeySpec(ids[|ids| - 1]);
      forall j | 0 <= j < |init| ensures init[j] == ids[j] { }
      if FormRows(f, init).Ok? {
        forall j | 0 <= j < |ids| ensures IdentifierKey(ids[j]).Some? <==> ':' in ids[j] {
          IdentifierKeySpec(ids[j]);
        }
      }
    }
  }

  /** An error in a prefix of the identifiers is the error of the whole form. */
  lemma {:induction false} FormRowsErrPrefix(f: Form, ids: seq<string>, n: nat)
    requires n <= |ids| && FormRows(f, ids[..n]).Err?
    ensures FormRows(f, ids) == FormRows(f, ids[..n])
    decreases |ids|
  {
    if n < |ids| {
      assert ids[..|ids| - 1][..n] == ids[..n];
      FormRowsErrPrefix(f, ids[..|ids| - 1], n);
    } else {
      assert ids[..n] == ids;
    }
  }

  /** An error in a prefix of the forms is the error of the whole catalog. */
  lemma {:induction false} FlattenErrPrefix(forms: seq<Form>, n: nat)
    requires n <= |forms| && Flatten(forms[..n]).Err?
    ensures Flatten(forms) == Flatten(forms[..n])
    decreases |forms|
  {
    if n < |forms| {
      assert forms[..|forms| - 1][..n] == forms[..n];
      FlattenErrPrefix(forms[..|forms| - 1], n);
    } else {
      assert forms[..n] == forms;
    }
  }

  /** The catalog is built exactly when every identifier has a `:`; a failure names
      a malformed identifier of one of the forms. */
  lemma {:induction false} FlattenOkIff(forms: seq<Form>)
    ensures Flatten(forms).Ok? <==> WellFormed(forms)
    ensures Flatten(forms).Err? ==>
      exists i :: 0 <= i < |forms| && Flatten(forms).error.identifier in forms[i].identifiers &&
        ':' !in Flatten(forms).error.identifier
    decreases |forms|
  {
    if |forms| > 0 {
      var init := forms[..|forms| - 1];
      var last := forms[|forms| - 1];
      FlattenOkIff(init);
      FormRowsSpec(last, last.identifiers);
      assert forall i :: 0 <= i < |init| ==> init[i] == forms[i];
      if WellFormed(forms) {
        assert WellFormed(init);
      }
      if Flatten(forms).Err? && Flatten(init).Err? {
        var i :| 0 <= i < |init| && Flatten(init).error.identifier in init[i].identifiers &&
          ':' !in Flatten(init).error.identifier;
        assert init[i] == forms[i];
      }
    }
  }

  /** The number of rows is the total number of identifiers over all forms. */
  lemma {:induction false} FlattenLength(forms: seq<Form>)
    requires Flatten(forms).Ok?
    ensures |Flatten(forms).value| == IdentifierCount(forms)
    decreases |forms|
  {
    if |forms| > 0 {
      var last := forms[|forms| - 1];
      FlattenLength(forms[..|forms| - 1]);
      FormRowsSpec(last, last.identifiers);
    }
  }

  /** The row for identifier `j` of form `i` sits at `IdentifierCount(forms[..i]) + j`. */
  lemma {:induction false} FlattenRowIs(forms: seq<Form>, i: nat, j: nat)
    requires Flatten(forms).Ok?
    requires i < |forms| && j < |forms[i].identifiers|
    ensures IdentifierKey(forms[i].identifiers[j]).Some?
    ensures IdentifierCount(forms[..i]) + j < |Flatten(forms).value|
    ensures Flatten(forms).value[IdentifierCount(forms[..i]) + j] ==
      RowFor(forms[i], IdentifierKey(forms[i].identifiers[j]).value)
    decreases |forms|
  {
    var n := |forms| - 1;
    var init := forms[..n];
    var last := forms[n];
    assert forms[..n + 1] == forms;
    FlattenSnoc(forms, n);
    var rows := Flatten(init).value;
    var more := FormRows(last, last.identifiers).value;
    assert Flatten(forms).value == rows + more;
    FormRowsSpec(last, last.identifiers);
    FlattenLength(init);
    if i < n {
      assert init[..i] == forms[..i];
      assert init[i] == forms[i];
      FlattenRowIs(init, i, j);
    } else {
      assert forms[..i] == init;
    }
  }

  /** Rows are grouped by form, in form order, and within a form in identifier order:
      identifier `j` of form `i` gives the row at `IdentifierCount(forms[..i]) + j`, whose
      identifier is the key of that identifier and whose other fields are copied from form `i`. */
  lemma FlattenRowAt(forms: seq<Form>, i: nat, j: nat)
    requires Flatten(forms).Ok?
    requires i < |forms| && j < |forms[i].identifiers|
    ensures IdentifierCount(forms[..i]) + j < |Flatten(forms).value|
    ensures var row := Flatten(forms).value[IdentifierCount(forms[..i]) + j];
      && IdentifierKey(forms[i].identifiers[j]).Some?
      && row.identifier == IdentifierKey(forms[i].identifiers[j]).value
      && row.name == forms[i].name
      && row.title == forms[i].title
      && row.totalSubmissions == forms[i].totalSubmissions
      && row.browserUrl == forms[i].browserUrl
      && row.createdDate == forms[i].createdDate
      && row.modifiedDate == forms[i].modifiedDate
      && row.creator == forms[i].creator
  {
    FlattenRowIs(forms, i, j);
  }

  /** All rows produced from one form agree on every field but the identifier. */
  lemma RowsOfOneFormAgree(forms: seq<Form>, i: nat, j1: nat, j2: nat)
    requires Flatten(forms).Ok?
    requires i < |forms| && j1 < |forms[i].identifiers| && j2 < |forms[i].identifiers|
    ensures IdentifierCount(forms[..i]) + j1 < |Flatten(forms).value|
    ensures IdentifierCount(forms[..i]) + j2 < |Flatten(forms).value|
    ensures var r1, r2 := Flatten(forms).value[IdentifierCount(forms[..i]) + j1],
                          Flatten(forms).value[IdentifierCount(forms[..i]) + j2];
      r1.(identifier := r2.identifier) == r2
  {
    FlattenRowAt(forms, i, j1);
    FlattenRowAt(forms, i, j2);
  }

  /** Appending one form to the list: the catalog grows by that form's rows, or fails. */
  lemma FlattenPush(forms: seq<Form>, f: Form)
    ensures Flatten(forms + [f]) ==
      match Flatten(forms)
      case Err(e) => Err(e)
      case Ok(rows) =>
        match FormRows(f, f.identifiers)
        case Err(e) => Err(e)
        case Ok(more) => Ok(rows + more)
  {
    assert (forms + [f])[..|forms|] == forms;
  }

  /** Flattening distributes over concatenation of form lists (row order follows form order). */
  lemma {:induction false} FlattenAppend(a: seq<Form>, b: seq<Form>)
    requires Flatten(a).Ok? && Flatten(b).Ok?
    ensures Flatten(a + b) == Ok(Flatten(a).value + Flatten(b).value)
    decreases |b|
  {
    if |b| == 0 {
      assert a + b == a;
      assert Flatten(a).value + [] == Flatten(a).value;
    } else {
      var b', last := b[..|b| - 1], b[|b| - 1];
      assert b == b' + [last];
      FlattenPush(b', last);
      FlattenAppend(a, b');
      FlattenAppendStep(a, b', last);
    }
  }

  /** The inductive step of `FlattenAppend`: one more form at the end of `b`. */
  lemma FlattenAppendStep(a: seq<Form>, b: seq<Form>, last: Form)
    requires Flatten(a).Ok? && Flatten(b).Ok? && FormRows(last, last.identifiers).Ok?
    requires Flatten(a + b) == Ok(Flatten(a).value + Flatten(b).value)
    ensures Flatten(a + (b + [last])) ==
      Ok(Flatten(a).value + (Flatten(b).value + FormRows(last, last.identifiers).value))
  {
    var ab := a + b;
    var rows, more := Flatten(a).value + Flatten(b).value, FormRows(last, last.identifiers).value;
    FlattenPush(ab, last);
    assert Flatten(ab + [last]) == Ok(rows + more);
    ConcatAssoc(a, b, [last]);
    ConcatAssoc(Flatten(a).value, Flatten(b).value, more);
  }

  /** The catalog with the forms of `forms` (the body of the nested loop that builds it). */
  method GetForms(forms: seq<Form>) returns (r: Result<seq<CatalogRow>, CatalogError>)
    ensures r == Flatten(forms)
  {
    var rows: seq<CatalogRow> := [];
    for i := 0 to |forms|
      invariant Flatten(forms[..i]) == Ok(rows)
    {
      var form := forms[i];
      ghost var before := rows;
      for j := 0 to |form.identifiers|
        invariant FormRows(form, form.identifiers[..j]).Ok?
        invariant rows == before + FormRows(form, form.identifiers[..j]).value
      {
        var identifier := form.identifiers[j];
        var key := IdentifierKey(identifier);
        FormRowsSnoc(form, form.identifiers, j);
        if key.None? {
          FormRowsErrPrefix(form, form.identifiers, j + 1);
          FlattenSnoc(forms, i);
          FlattenErrPrefix(forms, i + 1);
          return Err(MissingSeparator(identifier));
        }
        rows := rows + [RowFor(form, key.value)];
      }
      assert form.identifiers[..|form.identifiers|] == form.identifiers;
      FlattenSnoc(forms, i);
    }
    assert forms[..|forms|] == forms;
    return Ok(rows);
  }

  /** Identifier keys are unique within the catalog (the catalog is used as a lookup table). */
  ghost predicate DistinctIdentifiers(rows: seq<CatalogRow>)
  {
    forall i, j :: 0 <= i < j < |rows| ==> rows[i].identifier != rows[j].identifier
  }

  /** The identifier-to-name lookup `set_index('identifier')['name']`. */
  function FormMapping(rows: seq<CatalogRow>): (m: map<string, string>)
    requires DistinctIdentifiers(rows)
    ensures forall i :: 0 <= i < |rows| ==> rows[i].identifier in m && m[rows[i].identifier] == rows[i].name
    ensures forall key :: key in m ==> exists i :: 0 <= i < |rows| && rows[i].identifier == key
  {
    map i | 0 <= i < |rows| :: rows[i].identifier := rows[i].name
  }
}
