/** Firestore documents and the writes of a Commit, as values. Field values are opaque strings. */
module Documents {
  import opened Text

  datatype Doc = Doc(name: string, fields: map<string, string>, createTime: int, updateTime: int)

  type Docs = map<string, Doc>

  /** `fields == None` stands for fields that cannot be encoded; an empty mask replaces them all. */
  datatype Write =
    | Update(name: string, fields: Option<map<string, string>>, mask: seq<string>)
    | Delete(name: string)
    | Other

  /** What a masked update leaves: masked paths come from the request, the rest stay. */
  function Masked(was: map<string, string>, fields: map<string, string>, mask: seq<string>): map<string, string> {
    map k | k in was.Keys + fields.Keys && (if k in mask then k in fields else k in was) ::
      if k in mask then fields[k] else was[k]
  }

  /** The document a successful update writes. */
  function Updated(docs: Docs, name: string, fields: map<string, string>, mask: seq<string>, now: int): Doc {
    if name !in docs then Doc(name, fields, now, now)
    else docs[name].(fields := if mask != [] then Masked(docs[name].fields, fields, mask) else fields,
                     updateTime := now)
  }

  predicate Encodes(w: Write) { w.Update? ==> w.fields.Some? }

  function Apply(docs: Docs, w: Write, now: int): Docs
    requires Encodes(w)
  {
    match w
    case Update(name, fields, mask) => docs[name := Updated(docs, name, fields.value, mask, now)]
    case Delete(name) => docs - {name}
    case Other => docs
  }

  predicate AllEncode(ws: seq<Write>) { forall i :: 0 <= i < |ws| ==> Encodes(ws[i]) }

  function ApplyAll(docs: Docs, ws: seq<Write>, now: int): Docs
    requires AllEncode(ws)
  {
    if ws == [] then docs
    else Apply(ApplyAll(docs, ws[..|ws| - 1], now), ws[|ws| - 1], now)
  }

  ghost predicate Keyed(docs: Docs) { forall n :: n in docs ==> docs[n].name == n }

  lemma {:induction false} ApplyAllKeyed(docs: Docs, ws: seq<Write>, now: int)
    requires Keyed(docs) && AllEncode(ws)
    ensures Keyed(ApplyAll(docs, ws, now))
  {
    if ws != [] {
      ApplyAllKeyed(docs, ws[..|ws| - 1], now);
    }
  }

  // ---- Committing twice -------------------------------------------------------------

  /** What one document holds under one field path. */
  datatype Cell = NoDoc | NoField | Holds(value: string)

  function CellOf(docs: Docs, name: string, path: string): Cell {
    if name !in docs then NoDoc
    else if path in docs[name].fields then Holds(docs[name].fields[path])
    else NoField
  }

  /** Every write acts on a cell in one of three ways: not at all, by setting it outright, or by
      filling it only where the document was missing. */
  datatype Action = Leave | Set(cell: Cell) | Fill(cell: Cell)

  function Act(a: Action, c: Cell): Cell {
    match a
    case Leave => c
    case Set(d) => d
    case Fill(d) => if c == NoDoc then d else c
  }

  function Compose(first: Action, second: Action): Action {
    match second
    case Leave => first
    case Set(_) => second
    case Fill(d) =>
      match first
      case Leave => second
      case Set(c) => Set(if c == NoDoc then d else c)
      case Fill(c) => Fill(if c == NoDoc then d else c)
  }

  function ActionOf(w: Write, name: string, path: string): Action
    requires Encodes(w)
  {
    match w
    case Update(n, fields, mask) =>
      if n != name then Leave
      else
        var c := if path in fields.value then Holds(fields.value[path]) else NoField;
        if mask == [] || path in mask then Set(c) else Fill(c)
    case Delete(n) => if n == name then Set(NoDoc) else Leave
    case Other => Leave
  }

  function Summary(ws: seq<Write>, name: string, path: string): Action
    requires AllEncode(ws)
  {
    if ws == [] then Leave
    else Compose(Summary(ws[..|ws| - 1], name, path), ActionOf(ws[|ws| - 1], name, path))
  }

  lemma ApplyActs(docs: Docs, w: Write, now: int, name: string, path: string)
    requires Encodes(w)
    ensures CellOf(Apply(docs, w, now), name, path) == Act(ActionOf(w, name, path), CellOf(docs, name, path))
  {
  }

  /** A whole batch acts on each cell as one action. */
  lemma {:induction false} BatchActs(docs: Docs, ws: seq<Write>, now: int, name: string, path: string)
    requires AllEncode(ws)
    ensures CellOf(ApplyAll(docs, ws, now), name, path) == Act(Summary(ws, name, path), CellOf(docs, name, path))
  {
    if ws != [] {
      var front := ws[..|ws| - 1];
      BatchActs(docs, front, now, name, path);
      ApplyActs(ApplyAll(docs, front, now), ws[|ws| - 1], now, name, path);
    }
  }

  /** The same documents with the same fields; times may differ. */
  ghost predicate SameContents(a: Docs, b: Docs) {
    a.Keys == b.Keys && forall n :: n in a ==> a[n].fields == b[n].fields
  }

  lemma SameCellsSameContents(a: Docs, b: Docs)
    requires forall name, path :: CellOf(a, name, path) == CellOf(b, name, path)
    ensures SameContents(a, b)
  {
    forall n
      ensures n in a <==> n in b
    {
      assert CellOf(a, n, "") == CellOf(b, n, "");
    }
    forall n | n in a
      ensures a[n].fields == b[n].fields
    {
      forall path
        ensures path in a[n].fields <==> path in b[n].fields
        ensures path in a[n].fields ==> a[n].fields[path] == b[n].fields[path]
      {
        assert CellOf(a, n, path) == CellOf(b, n, path);
      }
    }
  }

  /** Committing the same batch again changes no document and no field. */
  lemma CommitIsIdempotent(docs: Docs, ws: seq<Write>, now: int, later: int)
    requires AllEncode(ws)
    ensures SameContents(ApplyAll(ApplyAll(docs, ws, now), ws, later), ApplyAll(docs, ws, now))
  {
    var once := ApplyAll(docs, ws, now);
    forall name, path
      ensures CellOf(ApplyAll(once, ws, later), name, path) == CellOf(once, name, path)
    {
      BatchActs(docs, ws, now, name, path);
      BatchActs(once, ws, later, name, path);
    }
    SameCellsSameContents(ApplyAll(once, ws, later), once);
  }

  // ---- Times --------------------------------------------------------------------------------

  predicate IsUpdateOf(w: Write, n: string) { w.Update? && w.name == n }

  /** Every stored document was created when it was first written since it last did not exist, and updated
      when it was last written. */
  lemma {:induction false} TimesAreKept(docs: Docs, ws: seq<Write>, now: int, n: string)
    requires AllEncode(ws) && n in ApplyAll(docs, ws, now)
    ensures var d := ApplyAll(docs, ws, now)[n];
            && d.createTime == (if n in docs && Delete(n) !in ws then docs[n].createTime else now)
            && ((exists w :: w in ws && IsUpdateOf(w, n)) ==> d.updateTime == now)
            && ((forall w :: w in ws ==> !IsUpdateOf(w, n)) ==> n in docs && d == docs[n])
  {
    if ws != [] {
      var front, w := ws[..|ws| - 1], ws[|ws| - 1];
      assert ws == front + [w];
      assert w in ws && forall x :: x in front ==> x in ws;
      if n in ApplyAll(docs, front, now) {
        TimesAreKept(docs, front, now, n);
      } else if n in docs {
        GoneIsDeleted(docs, front, now, n);
      }
    }
  }

  lemma {:induction false} GoneIsDeleted(docs: Docs, ws: seq<Write>, now: int, n: string)
    requires AllEncode(ws) && n in docs && n !in ApplyAll(docs, ws, now)
    ensures Delete(n) in ws
  {
    var front, w := ws[..|ws| - 1], ws[|ws| - 1];
    assert ws == front + [w];
    if n !in ApplyAll(docs, front, now) {
      GoneIsDeleted(docs, front, now, n);
    }
  }

  // ---- What a Commit tells its listeners -----------------------------------------------

  /** The documents written, in order: these are broadcast first. */
  function Changes(docs: Docs, ws: seq<Write>, now: int): seq<Doc>
    requires AllEncode(ws)
  {
    if ws == [] then []
    else
      var front, w := ws[..|ws| - 1], ws[|ws| - 1];
      Changes(docs, front, now) +
      if w.Update? then [Updated(ApplyAll(docs, front, now), w.name, w.fields.value, w.mask, now)] else []
  }

  /** The names whose deletion found a document, in order: these are broadcast after all changes. */
  function Deletes(docs: Docs, ws: seq<Write>, now: int): seq<string>
    requires AllEncode(ws)
  {
    if ws == [] then []
    else
      var front, w := ws[..|ws| - 1], ws[|ws| - 1];
      Deletes(docs, front, now) + if w.Delete? && w.name in ApplyAll(docs, front, now) then [w.name] else []
  }

  lemma {:induction false} MessagesAreFew(docs: Docs, ws: seq<Write>, now: int)
    requires AllEncode(ws)
    ensures |Changes(docs, ws, now)| + |Deletes(docs, ws, now)| <= |ws|
  {
    if ws != [] {
      MessagesAreFew(docs, ws[..|ws| - 1], now);
    }
  }

  /** A reader of the change messages ends up believing this. */
  function AfterChanges(docs: Docs, changes: seq<Doc>): Docs {
    if changes == [] then docs
    else
      var d := changes[|changes| - 1];
      AfterChanges(docs, changes[..|changes| - 1])[d.name := d]
  }

  function Believed(docs: Docs, ws: seq<Write>, now: int): Docs
    requires AllEncode(ws)
  {
    AfterChanges(docs, Changes(docs, ws, now)) - (set n | n in Deletes(docs, ws, now))
  }

  /** Away from deleted names the change messages tell the truth. */
  lemma {:induction false} ChangesAreTrue(docs: Docs, ws: seq<Write>, now: int, n: string)
    requires Keyed(docs) && AllEncode(ws) && n !in Deletes(docs, ws, now)
    ensures var told, stored := AfterChanges(docs, Changes(docs, ws, now)), ApplyAll(docs, ws, now);
            (n in told <==> n in stored) && (n in told ==> told[n] == stored[n])
  {
    if ws != [] {
      var front, w := ws[..|ws| - 1], ws[|ws| - 1];
      ChangesAreTrue(docs, front, now, n);
      ApplyAllKeyed(docs, front, now);
      if w.Update? {
        var changes := Changes(docs, ws, now);
        assert changes[..|changes| - 1] == Changes(docs, front, now);
      } else {
        assert Changes(docs, ws, now) == Changes(docs, front, now);
      }
    }
  }

  /** The batch deletes a stored document and a later write of it survives. */
  predicate Resurrects(docs: Docs, ws: seq<Write>, now: int, n: string)
    requires AllEncode(ws)
  {
    ws != [] &&
    var front, w := ws[..|ws| - 1], ws[|ws| - 1];
    if w.Update? && w.name == n then n in Deletes(docs, front, now)
    else if w == Delete(n) then false
    else Resurrects(docs, front, now, n)
  }

  ghost predicate Misleads(docs: Docs, ws: seq<Write>, now: int)
    requires AllEncode(ws)
  {
    exists n :: Resurrects(docs, ws, now, n)
  }

  lemma {:induction false} ResurrectedIsDeletedYetStored(docs: Docs, ws: seq<Write>, now: int, n: string)
    requires AllEncode(ws)
    ensures Resurrects(docs, ws, now, n) <==> n in Deletes(docs, ws, now) && n in ApplyAll(docs, ws, now)
  {
    if ws != [] {
      ResurrectedIsDeletedYetStored(docs, ws[..|ws| - 1], now, n);
    }
  }

  /** Name by name: only a resurrected document is told wrongly, as gone although it is stored. */
  lemma ToldOf(docs: Docs, ws: seq<Write>, now: int, n: string)
    requires Keyed(docs) && AllEncode(ws)
    ensures var told, stored := Believed(docs, ws, now), ApplyAll(docs, ws, now);
            if Resurrects(docs, ws, now, n) then n in stored && n !in told
            else (n in told <==> n in stored) && (n in told ==> told[n] == stored[n])
  {
    ResurrectedIsDeletedYetStored(docs, ws, now, n);
    if n !in Deletes(docs, ws, now) {
      ChangesAreTrue(docs, ws, now, n);
    }
  }

  /** What a Commit broadcasts describes the store exactly when it resurrects no document. */
  lemma BelievedIsStoredIff(docs: Docs, ws: seq<Write>, now: int)
    requires Keyed(docs) && AllEncode(ws)
    ensures Believed(docs, ws, now) == ApplyAll(docs, ws, now) <==> !Misleads(docs, ws, now)
  {
    var told, stored := Believed(docs, ws, now), ApplyAll(docs, ws, now);
    forall n
      ensures if Resurrects(docs, ws, now, n) then n in stored && n !in told
              else (n in told <==> n in stored) && (n in told ==> told[n] == stored[n])
    {
      ToldOf(docs, ws, now, n);
    }
    if Misleads(docs, ws, now) {
      var n :| Resurrects(docs, ws, now, n);
      assert n in stored && n !in told;
      assert told != stored;
    } else {
      assert told.Keys == stored.Keys;
    }
  }

  /** One batch that misleads: delete a stored document, then write it again. */
  lemma DeleteThenWriteMisleads()
    ensures var docs := map["a" := Doc("a", map[], 0, 0)];
            var ws := [Delete("a"), Update("a", Some(map[]), [])];
            Believed(docs, ws, 1) == map[] && "a" in ApplyAll(docs, ws, 1)
  {
    var docs := map["a" := Doc("a", map[], 0, 0)];
    var del, upd := Delete("a"), Update("a", Some(map[]), []);
    var ws := [del, upd];
    var one := [del];
    assert ws[..|ws| - 1] == one && one[..|one| - 1] == [];
    assert ApplyAll(docs, [], 1) == docs && Changes(docs, [], 1) == [];
    assert ApplyAll(docs, one, 1) == map[];
    assert Deletes(docs, one, 1) == ["a"];
    assert Changes(docs, one, 1) == Changes(docs, [], 1) + [];
    assert Changes(docs, ws, 1) == [Doc("a", map[], 1, 1)];
    assert AfterChanges(docs, Changes(docs, ws, 1)).Keys == {"a"};
  }
}
