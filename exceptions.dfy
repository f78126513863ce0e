/**
 * The client's exception hierarchy: a base error carrying a message and a details
 * dictionary, and one subclass per failure family, each of which only formats the
 * message (and, for table errors, records the table name in the details).
 */
module Exceptions {
  import opened Common

  /** The details dictionary; its values are modelled as already-formatted text. */
  type Details = map<string, string>

  datatype ErrorKind =
    | ClientError       // HdDBClientError, the base class
    | ConnectionError
    | QueryError
    | TableError
    | TableExistsError  // a subclass of TableError
    | TransactionError
    | ValidationError
    | DataTypeError

  /** A raised client error: its class, its `message` attribute and its `details` attribute. */
  datatype HdError = HdError(kind: ErrorKind, message: string, details: Details)

  /** Python truthiness of an optional dictionary: present and non-empty. */
  predicate Truthy(details: Option<Details>) {
    details.Some? && details.value != map[]
  }

  /** `details or {}`. */
  function OrEmpty(details: Option<Details>): (d: Details)
    ensures d == map[] <==> !Truthy(details)
    ensures Truthy(details) ==> d == details.value
  {
    if Truthy(details) then details.value else map[]
  }

  /** The text each subclass puts in front of the caller's message. */
  function Prefix(kind: ErrorKind): string {
    match kind
    case ClientError => ""
    case ConnectionError => "Connection Error: "
    case QueryError => "Query Error: "
    case TableError => "Table Error: "
    case TableExistsError => "Table Error: "
    case TransactionError => "Transaction Error: "
    case ValidationError => "Validation Error: "
    case DataTypeError => "Data Type Error: "
  }

  /** `HdDBClientError(message, details)`: the message is kept as given. */
  function NewClientError(message: string, details: Option<Details>): (e: HdError)
    ensures e.kind == ClientError && e.message == message
    ensures e.details == map[] <==> !Truthy(details)
    ensures Truthy(details) ==> e.details == details.value
  {
    HdError(ClientError, message, OrEmpty(details))
  }

  /** `ConnectionError(message, details)`. */
  function NewConnectionError(message: string, details: Option<Details>): (e: HdError)
    ensures e.kind == ConnectionError && e.message == "Connection Error: " + message
    ensures e.details == OrEmpty(details)
  {
    var base := NewClientError(Prefix(ConnectionError) + message, Some(OrEmpty(details)));
    base.(kind := ConnectionError)
  }

  /** `QueryError(message, details)`: the failing statement, when the details name one, is quoted in the message. */
  function NewQueryError(message: string, details: Option<Details>): (e: HdError)
    ensures e.kind == QueryError && e.details == OrEmpty(details)
    ensures "query" in OrEmpty(details) ==>
              e.message == "Query Error: " + message + " in query: " + OrEmpty(details)["query"]
    ensures "query" !in OrEmpty(details) ==> e.message == "Query Error: " + message
  {
    var d := OrEmpty(details);
    var body := if "query" in d then message + " in query: " + d["query"] else message;
    NewClientError(Prefix(QueryError) + body, Some(d)).(kind := QueryError)
  }

  /** `TableError(message, table_name, details)`, as a value: the details gain `table_name`. */
  function NewTableError(message: string, tableName: string, details: Option<Details>): (e: HdError)
    ensures e.kind == TableError && e.message == "Table Error: " + message
    ensures "table_name" in e.details && e.details["table_name"] == tableName
    ensures forall k :: k in e.details && k != "table_name" ==> k in OrEmpty(details) && e.details[k] == OrEmpty(details)[k]
    ensures forall k :: k in OrEmpty(details) ==> k in e.details
  {
    var d := OrEmpty(details)["table_name" := tableName];
    NewClientError(Prefix(TableError) + message, Some(d)).(kind := TableError)
  }

  /** `TableExistsError(table_name, details)`. */
  function NewTableExistsError(tableName: string, details: Option<Details>): (e: HdError)
    ensures e.kind == TableExistsError
    ensures e.message == "Table Error: Table '" + tableName + "' already exists"
    ensures "table_name" in e.details && e.details["table_name"] == tableName
  {
    NewTableError("Table '" + tableName + "' already exists", tableName, details).(kind := TableExistsError)
  }

  /** `TransactionError(message, details)`. */
  function NewTransactionError(message: string, details: Option<Details>): (e: HdError)
    ensures e.kind == TransactionError && e.message == "Transaction Error: " + message
    ensures e.details == OrEmpty(details)
  {
    NewClientError(Prefix(TransactionError) + message, Some(OrEmpty(details))).(kind := TransactionError)
  }

  /** `ValidationError(message, details)`. */
  function NewValidationError(message: string, details: Option<Details>): (e: HdError)
    ensures e.kind == ValidationError && e.message == "Validation Error: " + message
    ensures e.details == OrEmpty(details)
  {
    NewClientError(Prefix(ValidationError) + message, Some(OrEmpty(details))).(kind := ValidationError)
  }

  /** `DataTypeError(message, details)`. */
  function NewDataTypeError(message: string, details: Option<Details>): (e: HdError)
    ensures e.kind == DataTypeError && e.message == "Data Type Error: " + message
    ensures e.details == OrEmpty(details)
  {
    NewClientError(Prefix(DataTypeError) + message, Some(OrEmpty(details))).(kind := DataTypeError)
  }

  /** The family a message prefix names: a table-exists error reads as a table error. */
  function Family(kind: ErrorKind): ErrorKind {
    if kind == TableExistsError then TableError else kind
  }

  predicate StartsWith(s: string, p: string) {
    |p| <= |s| && s[..|p|] == p
  }

  /**
   * Reads a formatted message back: the family whose prefix it starts with and the
   * caller's text after it; a message with no known prefix reads as a base error.
   */
  function ParseMessage(message: string): (r: (ErrorKind, string))
    ensures r.0 != ClientError ==> message == Prefix(r.0) + r.1
    ensures r.0 == ClientError ==> r.1 == message
  {
    if StartsWith(message, Prefix(ConnectionError)) then (ConnectionError, message[|Prefix(ConnectionError)|..])
    else if StartsWith(message, Prefix(QueryError)) then (QueryError, message[|Prefix(QueryError)|..])
    else if StartsWith(message, Prefix(TableError)) then (TableError, message[|Prefix(TableError)|..])
    else if StartsWith(message, Prefix(TransactionError)) then (TransactionError, message[|Prefix(TransactionError)|..])
    else if StartsWith(message, Prefix(ValidationError)) then (ValidationError, message[|Prefix(ValidationError)|..])
    else if StartsWith(message, Prefix(DataTypeError)) then (DataTypeError, message[|Prefix(DataTypeError)|..])
    else (ClientError, message)
  }

  /**
   * The prefixes form a prefix-free code: from a subclass's formatted message one
   * recovers its family and exactly the text the caller passed.
   */
  lemma {:induction false} ParseFormatted(kind: ErrorKind, body: string)
    requires kind != ClientError
    ensures ParseMessage(Prefix(kind) + body) == (Family(kind), body)
  {
    var m := Prefix(kind) + body;
    var p := Prefix(kind);
    assert m[..|p|] == p;
    assert forall i :: 0 <= i < |p| ==> m[i] == p[i];
    match kind
    case ConnectionError =>
    case QueryError =>
      assert m[0] == 'Q';
    case TableError =>
      assert m[0] == 'T' && m[1] == 'a';
    case TableExistsError =>
      assert m[0] == 'T' && m[1] == 'a';
    case TransactionError =>
      assert m[0] == 'T' && m[1] == 'r';
    case ValidationError =>
      assert m[0] == 'V';
    case DataTypeError =>
      assert m[0] == 'D';
  }

  /** A query error's message reads back as a query error carrying the caller's text and the quoted statement. */
  lemma QueryErrorReadsBack(message: string, details: Option<Details>)
    ensures var d := OrEmpty(details);
            ParseMessage(NewQueryError(message, details).message)
              == (QueryError, if "query" in d then message + " in query: " + d["query"] else message)
  {
    var d := OrEmpty(details);
    ParseFormatted(QueryError, if "query" in d then message + " in query: " + d["query"] else message);
  }

  /** A table-exists error reads back as a table error naming the table. */
  lemma TableExistsReadsBack(tableName: string, details: Option<Details>)
    ensures ParseMessage(NewTableExistsError(tableName, details).message)
              == (TableError, "Table '" + tableName + "' already exists")
  {
    ParseFormatted(TableExistsError, "Table '" + tableName + "' already exists");
  }

  /** A mutable details dictionary, as the caller of `TableError` holds it. */
  class DetailsDict {
    var entries: Details

    constructor (entries: Details)
      ensures this.entries == entries
    {
      this.entries := entries;
    }
  }

  /**
   * `TableError(message, table_name, details)` with the caller's dictionary: when it is
   * non-empty, `details or {}` is that very object and the constructor writes
   * `table_name` into it; an empty or missing dictionary is replaced by a fresh one.
   */
  method RaiseTableError(message: string, tableName: string, details: DetailsDict?) returns (e: HdError)
    modifies details
    ensures details != null ==>
              e == NewTableError(message, tableName, Some(old(details.entries)))
    ensures details == null ==> e == NewTableError(message, tableName, None)
    ensures details != null && old(details.entries) != map[] ==>
              details.entries == old(details.entries)["table_name" := tableName]
    ensures details != null && old(details.entries) == map[] ==> details.entries == map[]
  {
    var d: DetailsDict;
    if details != null && details.entries != map[] {
      d := details;
    } else {
      d := new DetailsDict(map[]);
    }
    d.entries := d.entries["table_name" := tableName];
    e := HdError(TableError, Prefix(TableError) + message, d.entries);
  }
}
