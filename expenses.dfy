/**
 * The expense ledger: the `expenses` table as an append-only sequence of
 * records with an AUTOINCREMENT identifier, the insert every ingestion path
 * uses, and the validated manual insert of the add-expense endpoint.
 */
module Expenses {
  import opened Common
  import opened Dates

  /** The columns an insert supplies. `merchant`, `description` and `raw` are
      nullable columns; `None` is SQL NULL. */
  datatype Entry = Entry(
    source: string,
    date: string,
    merchant: Option<string>,
    description: Option<string>,
    amount: real,
    raw: Option<string>)

  /** A stored row: the entry under the identifier the table assigned it. */
  datatype Expense = Expense(id: nat, entry: Entry)

  /** `entries` stored one after another, the first under identifier `first`. */
  function Numbered(entries: seq<Entry>, first: nat): (rows: seq<Expense>)
    ensures |rows| == |entries|
  {
    if entries == [] then []
    else Numbered(entries[..|entries| - 1], first) + [Expense(first + |entries| - 1, entries[|entries| - 1])]
  }

  /** Entry k of a batch is stored under identifier `first + k`. */
  lemma {:induction false} NumberedAt(entries: seq<Entry>, first: nat)
    ensures forall k :: 0 <= k < |entries| ==> Numbered(entries, first)[k] == Expense(first + k, entries[k])
    decreases |entries|
  {
    if entries != [] {
      NumberedAt(entries[..|entries| - 1], first);
    }
  }

  lemma NumberedSnoc(entries: seq<Entry>, e: Entry, first: nat)
    ensures Numbered(entries + [e], first) == Numbered(entries, first) + [Expense(first + |entries|, e)]
  {
    assert (entries + [e])[..|entries|] == entries;
  }

  /** Storing one more entry after a batch extends the batch. */
  lemma StoreAfter(rows: seq<Expense>, entries: seq<Entry>, e: Entry, first: nat)
    ensures rows + Numbered(entries, first) + [Expense(first + |entries|, e)]
      == rows + Numbered(entries + [e], first)
  {
    NumberedSnoc(entries, e, first);
  }

  /** Storing two batches one after the other numbers the second from where
      the first stopped. */
  lemma {:induction false} NumberedAppend(a: seq<Entry>, b: seq<Entry>, first: nat)
    ensures Numbered(a + b, first) == Numbered(a, first) + Numbered(b, first + |a|)
    decreases |b|
  {
    if b == [] {
      assert a + b == a;
    } else {
      var b' := b[..|b| - 1];
      var e := b[|b| - 1];
      assert a + b == (a + b') + [e] && b == b' + [e];
      NumberedAppend(a, b', first);
      NumberedSnoc(a + b', e, first);
      NumberedSnoc(b', e, first + |a|);
    }
  }

  lemma StoreBatchAfter(rows: seq<Expense>, a: seq<Entry>, b: seq<Entry>, first: nat)
    ensures rows + Numbered(a, first) + Numbered(b, first + |a|) == rows + Numbered(a + b, first)
  {
    NumberedAppend(a, b, first);
  }

  /** Identifiers strictly increase along `rows`. */
  predicate IdsIncreasing(rows: seq<Expense>)
  {
    forall j, k :: 0 <= j < k < |rows| ==> rows[j].id < rows[k].id
  }

  /** A JSON request field: missing, explicitly null, or a string. */
  datatype Field = Absent | Null | Str(text: string)

  /** The body of a manual add request. `amount` is the number the endpoint
      obtains with `float(data.get("amount") or 0)`. */
  datatype ManualRequest = ManualRequest(
    source: Field,
    date: Field,
    amount: real,
    merchant: Field,
    description: Field)

  datatype AddError =
    | AmountNotPositive   // HTTP 400 "Amount must be > 0"
    | SourceIsNull        // the NOT NULL constraint on `source` rejects the insert

  /** `data.get(key, default)` for a nullable text column. */
  function Column(f: Field, default: string): Option<string>
  {
    match f
    case Absent => Some(default)
    case Null => None
    case Str(t) => Some(t)
  }

  /**
   * What the add-expense endpoint inserts for a request, or why it inserts
   * nothing: the amount must be positive; the source defaults to "manual"; a
   * missing, null or empty date becomes today's ISO date; and the raw column
   * repeats the description.
   */
  function ManualEntry(req: ManualRequest, today: CalendarDate): (r: Result<Entry, AddError>)
    ensures r == Err(AmountNotPositive) <==> req.amount <= 0.0
    ensures r == Err(SourceIsNull) <==> req.amount > 0.0 && req.source == Null
    ensures r.Ok? ==>
      && r.value.amount == req.amount > 0.0
      && r.value.raw == r.value.description
      && r.value.date != ""
      && (req.source == Absent ==> r.value.source == "manual")
      && (req.source.Str? ==> r.value.source == req.source.text)
      && (req.merchant == Absent ==> r.value.merchant == Some(""))
      && (req.merchant == Null ==> r.value.merchant == None)
      && (req.merchant.Str? ==> r.value.merchant == Some(req.merchant.text))
      && (req.description == Absent ==> r.value.description == Some(""))
      && (req.description == Null ==> r.value.description == None)
      && (req.description.Str? ==> r.value.description == Some(req.description.text))
      && (req.date.Str? && req.date.text != "" ==> r.value.date == req.date.text)
      && (!(req.date.Str? && req.date.text != "") ==> r.value.date == Iso(today))
  {
    if req.amount <= 0.0 then Err(AmountNotPositive)
    else
      var source := Column(req.source, "manual");
      var date := if req.date.Str? && req.date.text != "" then req.date.text else Iso(today);
      var description := Column(req.description, "");
      if source.None? then Err(SourceIsNull)
      else Ok(Entry(source.value, date, Column(req.merchant, ""), description, req.amount, description))
  }

  /** The `expenses` table. */
  class Ledger {
    var rows: seq<Expense>
    /** The identifier AUTOINCREMENT hands out next. */
    var nextId: nat

    /** Identifiers are positive, strictly increasing in insertion order and
        below the next one to be handed out. */
    ghost predicate Valid()
      reads this
    {
      && nextId >= 1
      && (forall k :: 0 <= k < |rows| ==> 1 <= rows[k].id < nextId)
      && IdsIncreasing(rows)
    }

    constructor ()
      ensures Valid() && rows == [] && nextId == 1
    {
      rows := [];
      nextId := 1;
    }

    /** `store_expense`: append one row under a fresh identifier, larger than
        every identifier stored before. */
    method Store(e: Entry) returns (id: nat)
      requires Valid()
      modifies this
      ensures Valid()
      ensures id == old(nextId) && nextId == id + 1
      ensures rows == old(rows) + [Expense(id, e)]
      ensures forall k :: 0 <= k < |old(rows)| ==> old(rows)[k].id < id
    {
      id := nextId;
      rows := rows + [Expense(id, e)];
      nextId := nextId + 1;
    }

    /** The insert of the add-expense endpoint: a rejected request leaves the
        ledger as it was; an accepted one appends exactly one row. */
    method AddManual(req: ManualRequest, today: CalendarDate) returns (r: Result<nat, AddError>)
      requires Valid()
      modifies this
      ensures Valid()
      ensures r.Err? <==> ManualEntry(req, today).Err?
      ensures r.Err? ==> r.error == ManualEntry(req, today).error && rows == old(rows) && nextId == old(nextId)
      ensures r.Ok? ==>
        && r.value == old(nextId) && nextId == old(nextId) + 1
        && rows == old(rows) + [Expense(r.value, ManualEntry(req, today).value)]
    {
      match ManualEntry(req, today)
      case Err(e) =>
        r := Err(e);
      case Ok(entry) =>
        var id := Store(entry);
        r := Ok(id);
    }
  }
}
