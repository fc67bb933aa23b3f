/** The values held by the record store of the posts table (js/app.js, class Model):
    post records and the per-column sort flags. */
module Posts {

  datatype Option<+T> = None | Some(value: T)

  /** One post as the store keeps it: the fields decoded from the endpoint plus the
      derived filter mark `isCorrect`. */
  datatype Post = Post(id: int, userId: int, title: string, body: string, isCorrect: bool)

  /** Two posts agree on everything but the filter mark. */
  predicate SameRecord(a: Post, b: Post) {
    a.id == b.id && a.userId == b.userId && a.title == b.title && a.body == b.body
  }

  /** The four sortable columns. */
  datatype Column = Id | UserId | Title | Body

  /** The property name under which the source keys a column. */
  function ColumnName(c: Column): string {
    match c
    case Id => "id"
    case UserId => "userId"
    case Title => "title"
    case Body => "body"
  }

  const ColumnNames: set<string> := {"id", "userId", "title", "body"}

  /** Resolves a property name to its column; every other name is unknown. */
  function ColumnOf(name: string): (r: Option<Column>)
    ensures r.Some? <==> name in ColumnNames
    ensures r.Some? ==> ColumnName(r.value) == name
    ensures forall c :: ColumnName(c) == name ==> r == Some(c)
  {
    if name == "id" then Some(Id)
    else if name == "userId" then Some(UserId)
    else if name == "title" then Some(Title)
    else if name == "body" then Some(Body)
    else None
  }

  /** One entry of `sortFlags`. */
  datatype Flag = Flag(isActive: bool, isASC: bool)

  /** The whole `sortFlags` table: exactly one entry per column. */
  datatype Flags = Flags(id: Flag, userId: Flag, title: Flag, body: Flag)

  /** The table the store starts with: every column inactive and descending. */
  function InitialFlags(): (f: Flags)
    ensures forall c :: FlagOf(f, c) == Flag(false, false)
  {
    Flags(Flag(false, false), Flag(false, false), Flag(false, false), Flag(false, false))
  }

  function FlagOf(flags: Flags, c: Column): Flag {
    match c
    case Id => flags.id
    case UserId => flags.userId
    case Title => flags.title
    case Body => flags.body
  }

  /** Overwrites one column's entry. */
  function WithFlag(flags: Flags, c: Column, f: Flag): (r: Flags)
    ensures FlagOf(r, c) == f
    ensures forall d :: d != c ==> FlagOf(r, d) == FlagOf(flags, d)
  {
    match c
    case Id => flags.(id := f)
    case UserId => flags.(userId := f)
    case Title => flags.(title := f)
    case Body => flags.(body := f)
  }

  /** The flag update of `setSortFlag`: a known column gets `{isActive: true, isASC}`,
      the other entries are kept as they are (none is switched off), and an unknown name
      changes nothing. This is the corrected guard: only the four column names pass. */
  function SetFlagByName(flags: Flags, name: string, asc: bool): (r: Flags)
    ensures name !in ColumnNames ==> r == flags
    ensures forall c :: FlagOf(r, c) == if ColumnName(c) == name then Flag(true, asc) else FlagOf(flags, c)
  {
    match ColumnOf(name)
    case None => flags
    case Some(c) => WithFlag(flags, c, Flag(true, asc))
  }

  /** The flag table as the JavaScript object of the source: one own property per column. */
  function AsTable(flags: Flags): (t: map<string, Flag>)
    ensures t.Keys == ColumnNames
    ensures forall c :: t[ColumnName(c)] == FlagOf(flags, c)
  {
    map["id" := flags.id, "userId" := flags.userId, "title" := flags.title, "body" := flags.body]
  }

  /** Seen as a table, the corrected update keeps exactly the four column keys and
      overwrites the entry of the given name only when it is one of them. */
  lemma SetFlagByNameTable(flags: Flags, name: string, asc: bool)
    ensures AsTable(SetFlagByName(flags, name, asc)).Keys == ColumnNames
    ensures AsTable(SetFlagByName(flags, name, asc))
         == if name in ColumnNames then AsTable(flags)[name := Flag(true, asc)] else AsTable(flags)
  {
    var t, t' := AsTable(flags), AsTable(SetFlagByName(flags, name, asc));
    if name in ColumnNames {
      var c := ColumnOf(name).value;
      forall k | k in ColumnNames ensures t'[k] == t[name := Flag(true, asc)][k] {
        var d := ColumnOf(k).value;
        assert t'[k] == FlagOf(SetFlagByName(flags, name, asc), d);
      }
    }
  }

  /** The names every plain JavaScript object inherits from Object.prototype as methods. */
  const InheritedNames: set<string> :=
    {"constructor", "hasOwnProperty", "isPrototypeOf", "propertyIsEnumerable",
     "toLocaleString", "toString", "valueOf",
     "__defineGetter__", "__defineSetter__", "__lookupGetter__", "__lookupSetter__"}

  /** The flag update of `setSortFlag` as written: the guard `sortFlags[flagName]` is a
      truthiness test, which an inherited method passes as well as an own entry. */
  function SetFlagAsWritten(t: map<string, Flag>, name: string, asc: bool): (r: map<string, Flag>)
    ensures r.Keys == if name in t || name in InheritedNames then t.Keys + {name} else t.Keys
  {
    if name in t || name in InheritedNames then t[name := Flag(true, asc)] else t
  }

  /** As written, the name "toString" is no column, yet it is not ignored: the table gains
      a fifth entry, while the corrected update leaves the table alone. */
  lemma InheritedNameNotIgnored(flags: Flags)
    ensures ColumnOf("toString").None?
    ensures SetFlagAsWritten(AsTable(flags), "toString", true).Keys == ColumnNames + {"toString"}
    ensures SetFlagAsWritten(AsTable(flags), "toString", true) != AsTable(SetFlagByName(flags, "toString", true))
  {
    var t := SetFlagAsWritten(AsTable(flags), "toString", true);
    assert "toString" in t.Keys && "toString" !in ColumnNames;
  }
}
