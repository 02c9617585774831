/**
 * Event-log lines and the three rewriting passes over them. A parsed line is its JSON value with objects as
 * maps, so key order is not modelled; a line the passes return unchanged is the same line.
 */
module EventLog {
  import opened Prelude

  datatype Value =
    | Null
    | Bool(b: bool)
    | Num(text: string)
    | Str(s: string)
    | Arr(elems: seq<Value>)
    | Obj(fields: map<string, Value>)

  datatype Line = Blank(text: string) | Malformed(text: string) | Event(value: Value)

  // ----- The type table -----

  const MAPPING: map<string, string> := map[
    "resource.created" := "yield:created",
    "resource.cloned" := "yield:cloned",
    "resource.updated" := "yield:updated",
    "resource.moved" := "yield:moved",
    "resource.archived" := "mark:archived",
    "resource.unarchived" := "mark:unarchived",
    "annotation.added" := "mark:added",
    "annotation.removed" := "mark:removed",
    "annotation.body.updated" := "mark:body-updated",
    "entitytag.added" := "mark:entity-tag-added",
    "entitytag.removed" := "mark:entity-tag-removed",
    "entitytype.added" := "frame:entity-type-added",
    "mark:entity-type-added" := "frame:entity-type-added",
    "embedding.computed" := "embedding:computed",
    "embedding.deleted" := "embedding:deleted",
    "job.started" := "job:started",
    "job.progress" := "job:progress",
    "job.completed" := "job:completed",
    "job.failed" := "job:failed",
    "representation.added" := "yield:representation-added",
    "representation.removed" := "yield:representation-removed"
  ]

  /** Names every plain object inherits a function under. */
  const INHERITED: set<string> := {
    "constructor", "hasOwnProperty", "isPrototypeOf", "propertyIsEnumerable", "toLocaleString", "toString", "valueOf",
    "__defineGetter__", "__defineSetter__", "__lookupGetter__", "__lookupSetter__"
  }

  /** What indexing the table with a key finds: an entry, an inherited function, the prototype object, or nothing. */
  datatype Found = Missing | Renamed(to: string) | Inherited | Prototype

  function LookUp(key: string): Found {
    if key in MAPPING then Renamed(MAPPING[key])
    else if key in INHERITED then Inherited
    else if key == "__proto__" then Prototype
    else Missing
  }

  /** How the new names look: enough to tell them from every old one and from what objects inherit. */
  predicate NewName(s: string) {
    |s| >= 10 &&
    (|| s[0] == 'y' || s[0] == 'f' || (s[0] == 'm' && |s| != 22)
     || (s[0] == 'e' && s[9] == ':') || (s[0] == 'j' && s[3] == ':'))
  }

  lemma TableLeadsToNewNames(key: string)
    requires key in MAPPING
    ensures NewName(MAPPING[key])
  {}

  lemma OldNamesAreNotNew(key: string)
    requires key in MAPPING
    ensures !NewName(key)
  {}

  lemma InheritedNamesAreNotNew(key: string)
    requires key in INHERITED || key == "__proto__"
    ensures !NewName(key)
  {}

  /** No new name is an old one, so renaming does not chain. */
  lemma RenamingDoesNotChain(key: string)
    requires key in MAPPING
    ensures LookUp(MAPPING[key]) == Missing
  {
    TableLeadsToNewNames(key);
    if MAPPING[key] in MAPPING {
      OldNamesAreNotNew(MAPPING[key]);
    }
    if MAPPING[key] in INHERITED || MAPPING[key] == "__proto__" {
      InheritedNamesAreNotNew(MAPPING[key]);
    }
  }

  // ----- The families of names -----

  /** The old names of a family keep their verb under the family's new name. */
  predicate Renames(before: string, after: string, verbs: set<string>) {
    forall verb :: verb in verbs ==> before + verb in MAPPING && MAPPING[before + verb] == after + verb
  }

  lemma ResourceNames()
    ensures Renames("resource.", "yield:", {"created", "cloned"})
  {
    assert "resource." + "created" == "resource.created" && "yield:" + "created" == "yield:created";
    assert "resource." + "cloned" == "resource.cloned" && "yield:" + "cloned" == "yield:cloned";
  }

  lemma ChangedResourceNames()
    ensures Renames("resource.", "yield:", {"updated", "moved"})
  {
    assert "resource." + "updated" == "resource.updated" && "yield:" + "updated" == "yield:updated";
    assert "resource." + "moved" == "resource.moved" && "yield:" + "moved" == "yield:moved";
  }

  lemma ArchivingNames()
    ensures Renames("resource.", "mark:", {"archived", "unarchived"})
  {
    assert "resource." + "archived" == "resource.archived" && "mark:" + "archived" == "mark:archived";
    assert "resource." + "unarchived" == "resource.unarchived" && "mark:" + "unarchived" == "mark:unarchived";
  }

  lemma AnnotationNames()
    ensures Renames("annotation.", "mark:", {"added", "removed"})
  {
    assert "annotation." + "added" == "annotation.added" && "mark:" + "added" == "mark:added";
    assert "annotation." + "removed" == "annotation.removed" && "mark:" + "removed" == "mark:removed";
  }

  lemma EntityTagNames()
    ensures Renames("entitytag.", "mark:entity-tag-", {"added", "removed"})
  {
    assert "entitytag." + "added" == "entitytag.added" && "mark:entity-tag-" + "added" == "mark:entity-tag-added";
    assert "entitytag." + "removed" == "entitytag.removed"
        && "mark:entity-tag-" + "removed" == "mark:entity-tag-removed";
  }

  lemma EmbeddingNames()
    ensures Renames("embedding.", "embedding:", {"computed", "deleted"})
  {
    assert "embedding." + "computed" == "embedding.computed" && "embedding:" + "computed" == "embedding:computed";
    assert "embedding." + "deleted" == "embedding.deleted" && "embedding:" + "deleted" == "embedding:deleted";
  }

  lemma JobNames()
    ensures Renames("job.", "job:", {"started", "progress", "completed", "failed"})
  {
    assert "job." + "started" == "job.started" && "job:" + "started" == "job:started";
    assert "job." + "progress" == "job.progress" && "job:" + "progress" == "job:progress";
    assert "job." + "completed" == "job.completed" && "job:" + "completed" == "job:completed";
    assert "job." + "failed" == "job.failed" && "job:" + "failed" == "job:failed";
  }

  lemma RepresentationNames()
    ensures Renames("representation.", "yield:representation-", {"added", "removed"})
  {
    assert "representation." + "added" == "representation.added"
        && "yield:representation-" + "added" == "yield:representation-added";
    assert "representation." + "removed" == "representation.removed"
        && "yield:representation-" + "removed" == "yield:representation-removed";
  }

  /** The three names outside these families. */
  lemma OtherNames()
    ensures "annotation.body.updated" in MAPPING && MAPPING["annotation.body.updated"] == "mark:body-updated"
    ensures "entitytype.added" in MAPPING && MAPPING["entitytype.added"] == "frame:entity-type-added"
    ensures "mark:entity-type-added" in MAPPING && MAPPING["mark:entity-type-added"] == "frame:entity-type-added"
  {}

  // ----- ECMAScript on parsed values -----

  function Truthy(v: Value): bool {
    match v
    case Null => false
    case Bool(b) => b
    case Num(t) => t != "0" && t != "-0"
    case Str(s) => s != ""
    case _ => true
  }

  /** `typeof v === 'object'`. */
  predicate ObjectLike(v: Value) {
    v.Null? || v.Arr? || v.Obj?
  }

  /** A value used as a property name; none when the conversion throws. */
  function ToKey(v: Value): Option<string> {
    match v
    case Null => Some("null")
    case Bool(b) => Some(if b then "true" else "false")
    case Num(t) => Some(t)
    case Str(s) => Some(s)
    case Arr(elems) => JoinKeys(elems)
    case Obj(fields) => if "toString" in fields then None else Some("[object Object]")
  }

  function JoinKeys(elems: seq<Value>): Option<string> {
    if elems == [] then Some("")
    else
      var first :- if elems[0].Null? then Some("") else ToKey(elems[0]);
      if |elems| == 1 then Some(first)
      else
        var rest :- JoinKeys(elems[1..]);
        Some(first + "," + rest)
  }

  function Decimal(n: nat): (s: string)
    ensures s != [] && forall i :: 0 <= i < |s| ==> '0' <= s[i] <= '9'
  {
    (if n >= 10 then Decimal(n / 10) else []) + [HexDigit(n % 10)]
  }

  function SpreadElems(elems: seq<Value>): (fields: map<string, Value>)
    ensures forall k :: k in fields ==> k != [] && '0' <= k[0] <= '9'
  {
    if elems == [] then map[] else SpreadElems(Front(elems))[Decimal(|elems| - 1) := Last(elems)]
  }

  /** The own properties `{...v}` copies. */
  function Spread(v: Value): map<string, Value> {
    match v
    case Obj(fields) => fields
    case Arr(elems) => SpreadElems(elems)
    case _ => map[]
  }
}
