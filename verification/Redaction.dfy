/** Structural redaction of a JSON payload (redaction.py). */
module Redaction {
  import opened JsonDoc
  import opened Orders

  /** What is not modelled: the masking and key patterns, `str` of a value and `str.lower`. */
  datatype Text = Text(mask: string -> string, sensitive: string -> bool, lower: string -> string, show: Json -> string)

  const SENSITIVE_MODELS: set<string> := {
    "res.partner", "res.users", "account.move", "account.payment", "hr.employee", "hr.payslip",
    "payment.transaction", "mail.message", "ir.attachment"
  }

  const STRIP_KEYS: set<string> := {
    "source", "code", "locals", "local_vars", "frame_locals", "globals", "self", "args", "kwargs", "vals", "vals_list"
  }

  const SENSITIVE_FIELDS: set<string> := {"email", "phone", "mobile", "vat", "iban", "acc_number", "login"}

  const META_KEYS: set<string> := {"model", "id", "_name"}

  const SLOT_MARK := Str("<redacted:sensitive-field>")
  const STRIP_MARK := Str("<stripped:external-mode>")
  const KEY_MARK := Str("<redacted>")
  const RECORD_MARK := Str("<redacted:sensitive-model-field>")

  predicate HighSensitivity(e: Text, model: string, field: string) {
    model in SENSITIVE_MODELS || e.sensitive(field) || field in SENSITIVE_FIELDS
  }

  /** `str(obj.get(k) or "")` */
  function Shown(e: Text, fields: map<string, Json>, k: string): string {
    if k in fields && Truthy(fields[k]) then (if fields[k].Str? then fields[k].s else e.show(fields[k])) else ""
  }

  /** A {model, field, value} triple whose value must go. */
  predicate HighSlot(e: Text, fields: map<string, Json>) {
    "value" in fields && ("model" in fields || "field" in fields)
    && HighSensitivity(e, Shown(e, fields, "model"), Shown(e, fields, "field"))
  }

  predicate SensitiveRecord(fields: map<string, Json>) {
    "model" in fields && fields["model"].Str? && fields["model"].s in SENSITIVE_MODELS
  }

  datatype Handling = Strip | Blank | Keep | Descend

  /** What happens to an entry, told from its key. */
  function Handle(e: Text, external: bool, k: string): Handling {
    if external && e.lower(k) in STRIP_KEYS then Strip
    else if e.sensitive(k) then Blank
    else if e.lower(k) in META_KEYS || StartsUnder(e.lower(k)) then Keep
    else Descend
  }

  predicate StartsUnder(s: string) {
    s != "" && s[0] == '_'
  }

  function RedactString(e: Text, s: string, external: bool, force: bool): Json {
    if force then RECORD_MARK else if external then Str(e.mask(s)) else Str(s)
  }

  function Redact(e: Text, j: Json, external: bool, force: bool): Json
    decreases j, 1
  {
    match j
    case Obj(fields) =>
      Obj(map k | k in fields :: Entry(e, j, k, external, force || (external && SensitiveRecord(fields))))
    case List(items) => List(seq(|items|, i requires 0 <= i < |items| => Redact(e, items[i], external, force)))
    case Str(s) => RedactString(e, s, external, force)
    case _ => j
  }

  /** What an object's entry becomes. */
  function Entry(e: Text, j: Json, k: string, external: bool, force: bool): Json
    requires j.Obj? && k in j.fields
    decreases j, 0
  {
    var slot := external && k == "value" && HighSlot(e, j.fields);
    match Handle(e, external, k)
    case Strip => STRIP_MARK
    case Blank => KEY_MARK
    case Keep => if slot then SLOT_MARK else j.fields[k]
    case Descend => if slot then RedactString(e, SLOT_MARK.s, external, force)
      else Redact(e, j.fields[k], external, force)
  }

  /** The recursive worker. */
  method RedactInPlace(e: Text, j: Json, external: bool, force: bool) returns (r: Json)
    ensures r == Redact(e, j, external, force)
    decreases j, 1
  {
    match j {
      case Obj(fields) => r := RedactDict(e, j, external, force);
      case List(items) =>
        var done := [];
        for i := 0 to |items|
          invariant |done| == i && forall n :: 0 <= n < i ==> done[n] == Redact(e, items[n], external, force)
        {
          var item := RedactInPlace(e, items[i], external, force);
          done := done + [item];
        }
        assert done == Redact(e, j, external, force).items;
        r := List(done);
      case Str(s) => r := RedactString(e, s, external, force);
      case Null => r := j;
      case Bool(_) => r := j;
      case Int(_) => r := j;
      case Num(_) => r := j;
    }
  }

  /** A dict, assigning into its entries in whatever order it lists its keys. */
  method RedactDict(e: Text, j: Json, external: bool, force: bool) returns (r: Json)
    requires j.Obj?
    ensures r == Redact(e, j, external, force)
    decreases j, 0, 2
  {
    var start := if external && HighSlot(e, j.fields) then j.fields["value" := SLOT_MARK] else j.fields;
    var obj := RedactEntries(e, j, start, external, force || (external && SensitiveRecord(j.fields)));
    r := Obj(obj);
    RedactObject(e, j, obj, external, force);
  }

  method RedactEntries(e: Text, j: Json, start: map<string, Json>, external: bool, force: bool)
    returns (obj: map<string, Json>)
    requires j.Obj? && start == if external && HighSlot(e, j.fields) then j.fields["value" := SLOT_MARK] else j.fields
    ensures obj.Keys == j.fields.Keys && forall k :: k in j.fields ==> obj[k] == Entry(e, j, k, external, force)
    decreases j, 0, 1
  {
    obj := start;
    var keys := j.fields.Keys;
    while keys != {}
      invariant keys <= j.fields.Keys == obj.Keys == start.Keys && EntriesDone(e, j, start, obj, keys, external, force)
      decreases |keys|
    {
      var k :| k in keys;
      var v := RedactEntry(e, j, k, obj[k], external, force);
      EntryDone(e, j, start, obj, keys, external, force, k);
      obj := obj[k := v];
      keys := keys - {k};
    }
  }

  /** The entries of the given keys are as at the start, all others have their new value. */
  ghost predicate EntriesDone(e: Text, j: Json, start: map<string, Json>, obj: map<string, Json>, keys: set<string>,
                              external: bool, force: bool)
    requires j.Obj? && obj.Keys == j.fields.Keys == start.Keys
  {
    forall k :: k in j.fields ==> obj[k] == if k in keys then start[k] else Entry(e, j, k, external, force)
  }

  lemma EntryDone(e: Text, j: Json, start: map<string, Json>, obj: map<string, Json>, keys: set<string>,
                  external: bool, force: bool, k: string)
    requires j.Obj? && obj.Keys == j.fields.Keys == start.Keys && k in j.fields
    requires EntriesDone(e, j, start, obj, keys, external, force)
    ensures EntriesDone(e, j, start, obj[k := Entry(e, j, k, external, force)], keys - {k}, external, force)
  {
  }

  lemma RedactObject(e: Text, j: Json, obj: map<string, Json>, external: bool, force: bool)
    requires j.Obj? && obj.Keys == j.fields.Keys
    requires forall k :: k in j.fields ==>
      obj[k] == Entry(e, j, k, external, force || (external && SensitiveRecord(j.fields)))
    ensures Obj(obj) == Redact(e, j, external, force)
  {
  }

  /** One pass of that loop: the new value of the entry whose current value is `v`. */
  method RedactEntry(e: Text, j: Json, k: string, v: Json, external: bool, force: bool) returns (r: Json)
    requires j.Obj? && k in j.fields
    requires v == if external && HighSlot(e, j.fields) && k == "value" then SLOT_MARK else j.fields[k]
    ensures r == Entry(e, j, k, external, force)
    decreases j, 0, 0
  {
    match Handle(e, external, k) {
      case Strip => r := STRIP_MARK;
      case Blank => r := KEY_MARK;
      case Keep => r := v;
      case Descend =>
        if v.Str? {
          r := RedactString(e, v.s, external, force);
        } else {
          r := RedactInPlace(e, v, external, force);
        }
    }
  }

  /** Entry point: the copy handed in is redacted with nothing forced. */
  method RedactPayload(e: Text, j: Json, mode: string) returns (r: Json)
    ensures r == Redact(e, j, mode == "external", false)
  {
    r := RedactInPlace(e, j, mode == "external", false);
  }

  // ------------------------------------------------------------------------
  // What becomes of a value, told from its key and its neighbours
  // ------------------------------------------------------------------------

  predicate StripsKey(e: Text, k: string) {
    e.lower(k) in STRIP_KEYS
  }

  predicate IsMetadata(e: Text, k: string) {
    var l := e.lower(k);
    l == "model" || l == "id" || (|l| > 0 && l[..1] == "_")
  }

  /** `str(obj.get(name) or "")`. */
  function NameIn(e: Text, j: Json, name: string): string {
    match Get(j, name)
    case Null => ""
    case Str(s) => s
    case v => if Truthy(v) then e.show(v) else ""
  }

  /** The object says of which model or field its value is, and one of the two is sensitive. */
  predicate NamesSensitiveValue(e: Text, j: Json) {
    && (Has(j, "model") || Has(j, "field"))
    && (NameIn(e, j, "model") in SENSITIVE_MODELS || e.sensitive(NameIn(e, j, "field"))
        || NameIn(e, j, "field") in SENSITIVE_FIELDS)
  }

  predicate DumpsSensitiveRecord(j: Json) {
    exists m :: m in SENSITIVE_MODELS && Get(j, "model") == Str(m)
  }

  lemma NamesAreShown(e: Text, j: Json, name: string)
    requires j.Obj?
    ensures NameIn(e, j, name) == Shown(e, j.fields, name)
  {
  }

  lemma SensitivityByName(e: Text, j: Json)
    requires j.Obj?
    ensures "value" in j.fields ==> (NamesSensitiveValue(e, j) <==> HighSlot(e, j.fields))
    ensures DumpsSensitiveRecord(j) <==> SensitiveRecord(j.fields)
  {
    NamesAreShown(e, j, "model");
    NamesAreShown(e, j, "field");
    if SensitiveRecord(j.fields) {
      assert j.fields["model"] == Str(j.fields["model"].s);
    }
  }

  lemma HandlingByName(e: Text, external: bool, k: string)
    ensures StripsKey(e, k) && external <==> Handle(e, external, k) == Strip
    ensures !(StripsKey(e, k) && external) && e.sensitive(k) <==> Handle(e, external, k) == Blank
    ensures !(StripsKey(e, k) && external) && !e.sensitive(k) && IsMetadata(e, k) <==> Handle(e, external, k) == Keep
  {
    var l := e.lower(k);
    assert l != "" ==> l[..1] == [l[0]];
    assert "_name"[0] == '_';
  }

  /** The value under a key: marked as stripped in external mode when the key is one of those, else blanked when the key
      is sensitive; else metadata is kept, or marked when it is a sensitive value; and anything else is redacted, forced
      when a sensitive record is being dumped, a sensitive value being replaced beforehand. */
  lemma KeysDecide(e: Text, j: Json, k: string, external: bool, force: bool)
    requires j.Obj? && k in j.fields
    ensures var r := Redact(e, j, external, force);
            var slot := external && k == "value" && NamesSensitiveValue(e, j);
            var deeper := force || (external && DumpsSensitiveRecord(j));
            && r.Obj? && r.fields.Keys == j.fields.Keys
            && r.fields[k] ==
               if external && StripsKey(e, k) then Str("<stripped:external-mode>")
               else if e.sensitive(k) then Str("<redacted>")
               else if IsMetadata(e, k) then if slot then Str("<redacted:sensitive-field>") else j.fields[k]
               else Redact(e, if slot then Str("<redacted:sensitive-field>") else j.fields[k], external, deeper)
  {
    SensitivityByName(e, j);
    HandlingByName(e, external, k);
  }

  /** Strings are replaced when forced and masked in external mode; numbers, booleans and null stay; a list is redacted
      item by item. */
  lemma ValuesAreRedacted(e: Text, s: string, items: seq<Json>, i: nat, external: bool, force: bool)
    requires i < |items|
    ensures Redact(e, Str(s), external, true) == Str("<redacted:sensitive-model-field>")
    ensures Redact(e, Str(s), true, false) == Str(e.mask(s)) && Redact(e, Str(s), false, false) == Str(s)
    ensures var r := Redact(e, List(items), external, force);
            r.List? && |r.items| == |items| && r.items[i] == Redact(e, items[i], external, force)
    ensures !items[i].Str? && !items[i].List? && !items[i].Obj? ==> Redact(e, items[i], external, force) == items[i]
  {
  }

  // ------------------------------------------------------------------------
  // What two payloads may hide
  // ------------------------------------------------------------------------

  /** Lower-casing and the key pattern leave the three names of a slot alone. */
  predicate Ordinary(e: Text) {
    e.lower("model") == "model" && e.lower("field") == "field" && e.lower("value") == "value"
    && !e.sensitive("model") && !e.sensitive("field") && !e.sensitive("value")
  }

  /** Two payloads that agree except under stripped or sensitive keys, in high-sensitivity `value` slots, and
      in string leaves inside sensitive records. */
  predicate DifferHidden(e: Text, a: Json, b: Json, force: bool)
    decreases a
  {
    match a
    case Obj(fields) =>
      b.Obj? && b.fields.Keys == fields.Keys
      && (forall k :: k in fields ==> EntryHidden(e, a, b, k, force || SensitiveRecord(fields)))
    case List(items) =>
      b.List? && |b.items| == |items|
      && (forall i :: 0 <= i < |items| ==> DifferHidden(e, items[i], b.items[i], force))
    case Str(_) => b.Str? && (force || a == b)
    case _ => a == b
  }

  predicate EntryHidden(e: Text, a: Json, b: Json, k: string, force: bool)
    requires a.Obj? && b.Obj? && k in a.fields && k in b.fields
    decreases a, 0
  {
    match Handle(e, true, k)
    case Strip => true
    case Blank => true
    case Keep => a.fields[k] == b.fields[k]
    case Descend =>
      (k == "value" && HighSlot(e, a.fields) && HighSlot(e, b.fields))
      || DifferHidden(e, a.fields[k], b.fields[k], force)
  }

  /** Where only one of two objects is classified as a high-sensitivity slot, the other one's value must
      redact to the same mark: it is a string, and either forced or masked like the mark itself. */
  predicate SlotsAgree(e: Text, a: Json, b: Json, force: bool)
    requires DifferHidden(e, a, b, force)
    decreases a
  {
    match a
    case Obj(fields) => forall k :: k in fields ==> EntryAgrees(e, a, b, k, force || SensitiveRecord(fields))
    case List(items) => forall i :: 0 <= i < |items| ==> SlotsAgree(e, items[i], b.items[i], force)
    case _ => true
  }

  predicate EntryAgrees(e: Text, a: Json, b: Json, k: string, force: bool)
    requires a.Obj? && b.Obj? && k in a.fields && k in b.fields && EntryHidden(e, a, b, k, force)
    decreases a, 0
  {
    if Handle(e, true, k) != Descend then true
    else if k == "value" && HighSlot(e, a.fields) then HighSlot(e, b.fields) || LikeTheMark(e, b.fields[k], force)
    else if k == "value" && HighSlot(e, b.fields) then LikeTheMark(e, a.fields[k], force)
    else SlotsAgree(e, a.fields[k], b.fields[k], force)
  }

  predicate LikeTheMark(e: Text, v: Json, force: bool) {
    v.Str? && (force || e.mask(v.s) == e.mask(SLOT_MARK.s))
  }

  lemma MarkedAlike(e: Text, v: Json, force: bool)
    ensures Redact(e, v, true, force) == RedactString(e, SLOT_MARK.s, true, force) <==> LikeTheMark(e, v, force)
  {
  }

  /** Payloads that differ only where redaction hides things redact to the same output exactly when their slot
      classifications agree. */
  lemma {:induction false} HiddenDifferencesVanish(e: Text, a: Json, b: Json, force: bool)
    requires Ordinary(e) && DifferHidden(e, a, b, force)
    ensures Redact(e, a, true, force) == Redact(e, b, true, force) <==> SlotsAgree(e, a, b, force)
    decreases a, 1
  {
    match a {
      case Obj(fields) =>
        var force' := force || SensitiveRecord(fields);
        SameRecordKind(e, a, b, force);
        forall k | k in fields
          ensures Entry(e, a, k, true, force') == Entry(e, b, k, true, force') <==> EntryAgrees(e, a, b, k, force')
        {
          EntriesVanish(e, a, b, k, force');
        }
        ObjectsEqual(e, a, b, force);
      case List(items) =>
        forall i | 0 <= i < |items|
          ensures Redact(e, items[i], true, force) == Redact(e, b.items[i], true, force) <==>
            SlotsAgree(e, items[i], b.items[i], force)
        {
          HiddenDifferencesVanish(e, items[i], b.items[i], force);
        }
        ListsEqual(e, items, b.items, force);
      case _ =>
    }
  }

  lemma SameRecordKind(e: Text, a: Json, b: Json, force: bool)
    requires Ordinary(e) && a.Obj? && DifferHidden(e, a, b, force)
    ensures SensitiveRecord(a.fields) == SensitiveRecord(b.fields)
  {
    if "model" in a.fields {
      assert EntryHidden(e, a, b, "model", force || SensitiveRecord(a.fields));
      assert Handle(e, true, "model") == Keep;
    }
  }

  lemma {:induction false} EntriesVanish(e: Text, a: Json, b: Json, k: string, force: bool)
    requires Ordinary(e) && a.Obj? && b.Obj? && k in a.fields && k in b.fields && EntryHidden(e, a, b, k, force)
    ensures Entry(e, a, k, true, force) == Entry(e, b, k, true, force) <==> EntryAgrees(e, a, b, k, force)
    decreases a, 0
  {
    if Handle(e, true, k) == Descend {
      MarkedAlike(e, a.fields[k], force);
      MarkedAlike(e, b.fields[k], force);
      if !(k == "value" && (HighSlot(e, a.fields) || HighSlot(e, b.fields))) {
        HiddenDifferencesVanish(e, a.fields[k], b.fields[k], force);
      }
    }
  }

  lemma RedactedFields(e: Text, j: Json, force: bool)
    requires j.Obj?
    ensures var r := Redact(e, j, true, force);
            r.Obj? && r.fields.Keys == j.fields.Keys
            && forall k :: k in j.fields ==> r.fields[k] == Entry(e, j, k, true, force || SensitiveRecord(j.fields))
  {
  }

  lemma ObjectsEqual(e: Text, a: Json, b: Json, force: bool)
    requires a.Obj? && b.Obj? && a.fields.Keys == b.fields.Keys
    requires SensitiveRecord(a.fields) == SensitiveRecord(b.fields)
    ensures var force' := force || SensitiveRecord(a.fields);
            Redact(e, a, true, force) == Redact(e, b, true, force) <==>
            (forall k :: k in a.fields ==> Entry(e, a, k, true, force') == Entry(e, b, k, true, force'))
  {
    RedactedFields(e, a, force);
    RedactedFields(e, b, force);
    SameFields(Redact(e, a, true, force).fields, Redact(e, b, true, force).fields);
  }

  lemma SameFields(a: map<string, Json>, b: map<string, Json>)
    requires a.Keys == b.Keys
    ensures a == b <==> forall k :: k in a ==> a[k] == b[k]
  {
  }

  lemma ListsEqual(e: Text, a: seq<Json>, b: seq<Json>, force: bool)
    requires |a| == |b|
    ensures Redact(e, List(a), true, force) == Redact(e, List(b), true, force) <==>
            (forall i :: 0 <= i < |a| ==> Redact(e, a[i], true, force) == Redact(e, b[i], true, force))
  {
    var ra, rb := Redact(e, List(a), true, force).items, Redact(e, List(b), true, force).items;
    assert forall i :: 0 <= i < |a| ==> ra[i] == Redact(e, a[i], true, force) && rb[i] == Redact(e, b[i], true, force);
    if forall i :: 0 <= i < |a| ==> Redact(e, a[i], true, force) == Redact(e, b[i], true, force) {
      assert ra == rb;
    }
  }

  /** Every pair of corresponding objects names the same field. */
  predicate SameFieldNames(e: Text, a: Json, b: Json, force: bool)
    requires DifferHidden(e, a, b, force)
    decreases a
  {
    match a
    case Obj(fields) =>
      Get(a, "field") == Get(b, "field")
      && forall k ::
           k in fields && Handle(e, true, k) == Descend
           && !(k == "value" && HighSlot(e, fields) && HighSlot(e, b.fields)) ==>
             EntryHidden(e, a, b, k, force || SensitiveRecord(fields))
             && SameFieldNames(e, fields[k], b.fields[k], force || SensitiveRecord(fields))
    case List(items) => forall i :: 0 <= i < |items| ==> SameFieldNames(e, items[i], b.items[i], force)
    case _ => true
  }

  /** In particular nothing shows through when the field names themselves are the same. */
  lemma {:induction false} SameFieldsAgree(e: Text, a: Json, b: Json, force: bool)
    requires Ordinary(e) && DifferHidden(e, a, b, force) && SameFieldNames(e, a, b, force)
    ensures SlotsAgree(e, a, b, force)
    decreases a
  {
    match a {
      case Obj(fields) =>
        SameSlot(e, a, b, force);
        forall k | k in fields ensures EntryAgrees(e, a, b, k, force || SensitiveRecord(fields)) {
          assert EntryHidden(e, a, b, k, force || SensitiveRecord(fields));
          if Handle(e, true, k) == Descend && !(k == "value" && HighSlot(e, fields)) {
            SameFieldsAgree(e, fields[k], b.fields[k], force || SensitiveRecord(fields));
          }
        }
      case List(items) =>
        forall i | 0 <= i < |items| ensures SlotsAgree(e, items[i], b.items[i], force) {
          SameFieldsAgree(e, items[i], b.items[i], force);
        }
      case _ =>
    }
  }

  lemma SameSlot(e: Text, a: Json, b: Json, force: bool)
    requires Ordinary(e) && a.Obj? && DifferHidden(e, a, b, force) && Get(a, "field") == Get(b, "field")
    ensures HighSlot(e, a.fields) == HighSlot(e, b.fields)
  {
    if "model" in a.fields {
      assert EntryHidden(e, a, b, "model", force || SensitiveRecord(a.fields));
      assert Handle(e, true, "model") == Keep;
    }
  }

  /** A string leaf of a sensitive record can show through all the same: as the `field` of a nested triple it
      decides whether a number next to it is replaced. */
  lemma FieldNameShows(e: Text)
    requires Ordinary(e) && !e.sensitive("email") && !e.sensitive("name") && !e.sensitive("")
    requires e.lower("x") == "x" && !e.sensitive("x")
    ensures exists a, b :: DifferHidden(e, a, b, false) && Redact(e, a, true, false) != Redact(e, b, true, false)
  {
    var a, b := Partner(Triple("email")), Partner(Triple("name"));
    TriplesDiffer(e);
    NestedDiffer(e, Triple("email"), Triple("name"));
    HiddenDifferencesVanish(e, a, b, false);
  }

  function Triple(field: string): Json {
    Obj(map["field" := Str(field), "value" := Int(5)])
  }

  function Partner(x: Json): Json {
    Obj(map["model" := Str("res.partner"), "x" := x])
  }

  lemma TriplesDiffer(e: Text)
    requires Ordinary(e) && !e.sensitive("email") && !e.sensitive("name") && !e.sensitive("")
    ensures DifferHidden(e, Triple("email"), Triple("name"), true)
    ensures !SlotsAgree(e, Triple("email"), Triple("name"), true)
  {
    TripleSlots(e);
    TripleEntries(e);
    assert !EntryAgrees(e, Triple("email"), Triple("name"), "value", true);
  }

  lemma TripleSlots(e: Text)
    requires Ordinary(e) && !e.sensitive("email") && !e.sensitive("name") && !e.sensitive("")
    ensures HighSlot(e, Triple("email").fields) && !HighSlot(e, Triple("name").fields)
  {
  }

  lemma TripleEntries(e: Text)
    requires Ordinary(e)
    ensures forall k :: k in Triple("email").fields ==> EntryHidden(e, Triple("email"), Triple("name"), k, true)
    ensures Handle(e, true, "value") == Descend
  {
  }

  lemma PartnerIsSensitive(x: Json)
    ensures Partner(x).Obj? && SensitiveRecord(Partner(x).fields)
    ensures Partner(x).fields.Keys == {"model", "x"} && Partner(x).fields["x"] == x
  {
    assert "res.partner" in SENSITIVE_MODELS;
  }

  lemma NestedDiffer(e: Text, a: Json, b: Json)
    requires Ordinary(e) && e.lower("x") == "x" && !e.sensitive("x")
    requires DifferHidden(e, a, b, true) && !SlotsAgree(e, a, b, true)
    ensures DifferHidden(e, Partner(a), Partner(b), false)
    ensures !SlotsAgree(e, Partner(a), Partner(b), false)
  {
    PartnerIsSensitive(a);
    PartnerIsSensitive(b);
    NestedEntries(e, a, b);
    assert EntryHidden(e, Partner(a), Partner(b), "x", true);
  }

  lemma NestedEntries(e: Text, a: Json, b: Json)
    requires Ordinary(e) && e.lower("x") == "x" && !e.sensitive("x")
    requires DifferHidden(e, a, b, true) && !SlotsAgree(e, a, b, true)
    ensures EntryHidden(e, Partner(a), Partner(b), "model", true)
    ensures EntryHidden(e, Partner(a), Partner(b), "x", true)
    ensures !EntryAgrees(e, Partner(a), Partner(b), "x", true)
  {
    PartnerIsSensitive(a);
    PartnerIsSensitive(b);
    PartnerKeys(e);
  }

  lemma PartnerKeys(e: Text)
    requires Ordinary(e) && e.lower("x") == "x" && !e.sensitive("x")
    ensures Handle(e, true, "x") == Descend && Handle(e, true, "model") == Keep
  {
  }

  // ------------------------------------------------------------------------
  // What every leaf of the output is
  // ------------------------------------------------------------------------

  datatype Step = Key(k: string) | Item(i: nat)

  function At(j: Json, p: seq<Step>): Option<Json>
    decreases p
  {
    if p == [] then Some(j)
    else
      match p[0]
      case Key(k) => if j.Obj? && k in j.fields then At(j.fields[k], p[1..]) else None
      case Item(i) => if j.List? && i < |j.items| then At(j.items[i], p[1..]) else None
  }

  /** The path crosses no stripped, blanked or kept key and no sensitive slot. */
  predicate Open(e: Text, j: Json, external: bool, p: seq<Step>)
    decreases p
  {
    p == []
    || match p[0]
       case Key(k) =>
         j.Obj? && k in j.fields && Handle(e, external, k) == Descend &&
           !(external && k == "value" && HighSlot(e, j.fields))
         && Open(e, j.fields[k], external, p[1..])
       case Item(i) => j.List? && i < |j.items| && Open(e, j.items[i], external, p[1..])
  }

  /** Some object on the way is a sensitive record. */
  predicate InRecord(j: Json, p: seq<Step>)
    decreases p
  {
    p != []
    && match p[0]
       case Key(k) => j.Obj? && k in j.fields && (SensitiveRecord(j.fields) || InRecord(j.fields[k], p[1..]))
       case Item(i) => j.List? && i < |j.items| && InRecord(j.items[i], p[1..])
  }

  /** The path meets a kept key before anything is hidden. */
  predicate Kept(e: Text, j: Json, p: seq<Step>)
    decreases p
  {
    p != []
    && match p[0]
       case Key(k) => j.Obj? && k in j.fields &&
         (Handle(e, true, k) == Keep || (Handle(e, true, k) == Descend && Kept(e, j.fields[k], p[1..])))
       case Item(i) => j.List? && i < |j.items| && Kept(e, j.items[i], p[1..])
  }

  /** What sits at the end of an open path is redacted in its place; inside a sensitive record, and there
      only, its strings are replaced rather than masked. */
  lemma {:induction false} OpenPathsAreRedacted(e: Text, j: Json, external: bool, force: bool, p: seq<Step>)
    requires Open(e, j, external, p)
    ensures At(j, p).Some?
    ensures At(Redact(e, j, external, force), p) ==
      Some(Redact(e, At(j, p).value, external, force || (external && InRecord(j, p))))
    decreases p
  {
    if p != [] {
      match p[0] {
        case Key(k) => OpenPathsAreRedacted(e, j.fields[k], external,
          force || (external && SensitiveRecord(j.fields)), p[1..]);
        case Item(i) => OpenPathsAreRedacted(e, j.items[i], external, force, p[1..]);
      }
    }
  }

  predicate IsMark(e: Text, v: Json) {
    v in {SLOT_MARK, STRIP_MARK, KEY_MARK, RECORD_MARK, Str(e.mask(SLOT_MARK.s))}
  }

  /** Every string in an external output is a placeholder, the masked form of the payload's own string there, or
      sits under a kept metadata key. */
  lemma {:induction false} OutputStringsAreSafe(e: Text, j: Json, force: bool, p: seq<Step>)
    requires At(Redact(e, j, true, force), p).Some? && At(Redact(e, j, true, force), p).value.Str?
    ensures var t := At(Redact(e, j, true, force), p).value;
            IsMark(e, t)
            || (Kept(e, j, p) && At(j, p) == Some(t))
            || (Open(e, j, true, p) && !force && !InRecord(j, p) && At(j, p).Some? && At(j, p).value.Str?
                && t == Str(e.mask(At(j, p).value.s)))
    decreases p
  {
    if p != [] {
      match p[0] {
        case Key(k) =>
          var force' := force || SensitiveRecord(j.fields);
          assert At(Redact(e, j, true, force), p) == At(Entry(e, j, k, true, force'), p[1..]);
          if Handle(e, true, k) == Descend && !(k == "value" && HighSlot(e, j.fields)) {
            OutputStringsAreSafe(e, j.fields[k], force', p[1..]);
          } else if Handle(e, true, k) != Keep {
            assert p[1..] == [];
          }
        case Item(i) =>
          OutputStringsAreSafe(e, j.items[i], force, p[1..]);
      }
    }
  }

  /** Some key on the path is metadata that is shown. */
  predicate CrossesMetadata(e: Text, external: bool, p: seq<Step>) {
    exists i :: 0 <= i < |p| && ShownMetadata(e, external, p[i])
  }

  predicate ShownMetadata(e: Text, external: bool, step: Step) {
    step.Key? && IsMetadata(e, step.k) && !e.sensitive(step.k) && !(external && StripsKey(e, step.k))
  }

  /** No value under a sensitive key appears in an output, at any depth and in either mode: where the output still has
      the key, it holds a mark. The one exception is a payload below a metadata key, which is kept as it is. */
  lemma {:induction false} SensitiveKeysAreBlanked(e: Text, j: Json, external: bool, force: bool, p: seq<Step>,
                                                   k: string)
    requires e.sensitive(k) && At(Redact(e, j, external, force), p + [Key(k)]).Some?
    ensures var v := At(Redact(e, j, external, force), p + [Key(k)]).value;
            if CrossesMetadata(e, external, p) then At(j, p + [Key(k)]) == Some(v)
            else v == Str("<redacted>") || (external && v == Str("<stripped:external-mode>"))
    decreases p
  {
    var q := p + [Key(k)];
    if p == [] {
      assert q[1..] == [];
      KeysDecide(e, j, k, external, force);
    } else {
      assert q[0] == p[0] && q[1..] == p[1..] + [Key(k)];
      match p[0] {
        case Key(first) =>
          HandlingByName(e, external, first);
          OneKeyDown(e, j, external, force, first, q[1..]);
          if Handle(e, external, first) == Descend {
            SensitiveKeysAreBlanked(e, j.fields[first], external, force || (external && SensitiveRecord(j.fields)),
                                    p[1..], k);
            assert CrossesMetadata(e, external, p) <==> CrossesMetadata(e, external, p[1..]) by {
              LaterMetadata(e, external, p);
            }
          } else {
            assert ShownMetadata(e, external, p[0]);
          }
        case Item(i) =>
          SensitiveKeysAreBlanked(e, j.items[i], external, force, p[1..], k);
          LaterMetadata(e, external, p);
      }
    }
  }

  lemma LaterMetadata(e: Text, external: bool, p: seq<Step>)
    requires p != [] && !ShownMetadata(e, external, p[0])
    ensures CrossesMetadata(e, external, p) <==> CrossesMetadata(e, external, p[1..])
  {
    if i :| 0 <= i < |p| && ShownMetadata(e, external, p[i]) {
      assert p[1..][i - 1] == p[i];
    }
    if i :| 0 <= i < |p[1..]| && ShownMetadata(e, external, p[1..][i]) {
      assert p[i + 1] == p[1..][i];
    }
  }

  /** Below a key, the output only goes on where the value was kept or redacted in its turn. */
  lemma OneKeyDown(e: Text, j: Json, external: bool, force: bool, first: string, rest: seq<Step>)
    requires rest != [] && At(Redact(e, j, external, force), [Key(first)] + rest).Some?
    ensures j.Obj? && first in j.fields && Handle(e, external, first) in {Keep, Descend}
    ensures At(Redact(e, j, external, force), [Key(first)] + rest) ==
            if Handle(e, external, first) == Keep then At(j.fields[first], rest)
            else At(Redact(e, j.fields[first], external, force || (external && SensitiveRecord(j.fields))), rest)
  {
    assert ([Key(first)] + rest)[1..] == rest;
  }
}
