/**
 JSON documents, JSON Pointers (RFC 6901) and JSON Patch (RFC 6902, sections 4.1 to 4.6), with
 the two options the patch handler turns on: a remove of something absent succeeds, and an add
 creates the containers missing on the way to its target.
 */
module JsonPatch {
  import opened Wrappers
  import opened Strings

  /** `JReal` is a number literal with a fraction or an exponent, kept as written. */
  datatype Json =
    | JNull
    | JBool(b: bool)
    | JInt(n: int)
    | JReal(literal: string)
    | JString(s: string)
    | JArray(items: seq<Json>)
    | JObject(members: map<string, Json>)

  // ---- JSON Pointer (RFC 6901) ---------------------------------------------------------

  type Pointer = seq<string>

  function Escape(token: string): string {
    if token == "" then ""
    else (if token[0] == '~' then "~0" else if token[0] == '/' then "~1" else [token[0]]) + Escape(token[1..])
  }

  function Unescape(token: string): string {
    if token == "" then ""
    else if |token| >= 2 && token[0] == '~' && token[1] == '1' then "/" + Unescape(token[2..])
    else if |token| >= 2 && token[0] == '~' && token[1] == '0' then "~" + Unescape(token[2..])
    else [token[0]] + Unescape(token[1..])
  }

  function UnescapeAll(tokens: seq<string>): (p: Pointer)
    ensures |p| == |tokens|
    ensures forall i :: 0 <= i < |p| ==> p[i] == Unescape(tokens[i])
  {
    seq(|tokens|, i requires 0 <= i < |tokens| => Unescape(tokens[i]))
  }

  function EscapeAll(p: Pointer): (tokens: seq<string>)
    ensures |p| == |tokens|
    ensures forall i :: 0 <= i < |p| ==> tokens[i] == Escape(p[i])
  {
    seq(|p|, i requires 0 <= i < |p| => Escape(p[i]))
  }

  /** The reference tokens of a pointer; None for text that is no pointer. */
  function ParsePointer(path: string): Option<Pointer> {
    if path == "" then Some([])
    else if path[0] != '/' then None
    else Some(UnescapeAll(Split(path[1..], '/')))
  }

  function PrintPointer(p: Pointer): string {
    if p == [] then "" else "/" + Join(EscapeAll(p), '/')
  }

  lemma {:induction false} EscapeRoundTrip(token: string)
    ensures Unescape(Escape(token)) == token
    ensures '/' !in Escape(token)
  {
    if token != "" {
      EscapeRoundTrip(token[1..]);
      var e, rest := Escape(token), Escape(token[1..]);
      if token[0] == '~' || token[0] == '/' {
        assert e[2..] == rest;
      } else {
        assert e[1..] == rest;
      }
    }
  }

  /** A tilde that starts no escape stays. */
  lemma {:induction false} StrayTildesStay(token: string)
    requires forall i | 0 <= i < |token| - 1 && token[i] == '~' :: token[i + 1] != '0' && token[i + 1] != '1'
    ensures Unescape(token) == token
  {
    if token != "" {
      assert forall i | 0 <= i < |token| - 2 && token[1..][i] == '~' :: token[1..][i + 1] == token[i + 2];
      StrayTildesStay(token[1..]);
    }
  }

  /** Every pointer survives being printed and parsed. */
  lemma PointerRoundTrip(p: Pointer)
    ensures ParsePointer(PrintPointer(p)) == Some(p)
  {
    if p != [] {
      var tokens := EscapeAll(p);
      forall i | 0 <= i < |p|
        ensures '/' !in tokens[i] && Unescape(tokens[i]) == p[i]
      {
        EscapeRoundTrip(p[i]);
      }
      JoinSplit(tokens, '/');
      assert PrintPointer(p)[1..] == Join(tokens, '/');
      assert UnescapeAll(tokens) == p;
    }
  }

  /** An array index as section 4 of RFC 6901 wants it: digits without a leading zero. */
  function ArrayIndex(token: string): Option<nat> {
    if |token| >= 1 && AllDigits(token) && (|token| > 1 ==> token[0] != '0')
    then Some(DigitsValue(token))
    else None
  }

  /** Exactly the decimal forms of the naturals are array indices. */
  lemma ArrayIndexIffDigits(token: string, i: nat)
    ensures ArrayIndex(token) == Some(i) <==> token == Digits(i)
  {
    DigitsRoundTrip(i);
    if ArrayIndex(token).Some? {
      DigitsCanonical(token);
    }
  }

  /** The value a pointer names, if there is one. */
  function Get(doc: Json, p: Pointer): Option<Json>
    decreases |p|
  {
    if p == [] then Some(doc) else
      match doc
      case JObject(ms) => if p[0] in ms then Get(ms[p[0]], p[1..]) else None
      case JArray(items) =>
        var i := ArrayIndex(p[0]);
        if i.Some? && i.value < |items| then Get(items[i.value], p[1..]) else None
      case _ => None
  }

  // ---- JSON Patch (RFC 6902) -----------------------------------------------------------

  datatype Edit = Add(value: Json) | Remove | Replace(value: Json) | Test(value: Json)

  /** An edit whose target is the member `key` of `doc`. */
  function EditMember(doc: Json, key: string, edit: Edit): Option<Json> {
    match doc
    case JObject(ms) => EditObject(ms, key, edit)
    case JArray(items) => EditArray(items, key, edit)
    case _ => if edit.Remove? then Some(doc) else None
  }

  function EditObject(ms: map<string, Json>, key: string, edit: Edit): Option<Json> {
    match edit
    case Add(v) => Some(JObject(ms[key := v]))
    case Remove => Some(JObject(ms - {key}))
    case Replace(v) => if key in ms then Some(JObject(ms[key := v])) else None
    case Test(v) => if key in ms && ms[key] == v then Some(JObject(ms)) else None
  }

  function EditArray(items: seq<Json>, key: string, edit: Edit): Option<Json> {
    if key == "-" then
      match edit
      case Add(v) => Some(JArray(items + [v]))
      case _ => None
    else if ArrayIndex(key).None? then None
    else
      var i := ArrayIndex(key).value;
      match edit
      case Add(v) => if i <= |items| then Some(JArray(items[..i] + [v] + items[i..])) else None
      case Remove => Some(JArray(if i < |items| then items[..i] + items[i + 1..] else items))
      case Replace(v) => if i < |items| then Some(JArray(items[i := v])) else None
      case Test(v) => if i < |items| && items[i] == v then Some(JArray(items)) else None
  }

  function Nulls(n: nat): (items: seq<Json>)
    ensures |items| == n
  {
    seq(n, _ => JNull)
  }

  /** The container an add creates above a token: an array above an index or "-". */
  function NewContainer(below: string): Json {
    if below == "-" then JArray([])
    else match ArrayIndex(below)
      case Some(i) => JArray(Nulls(i))
      case None => JObject(map[])
  }

  /** An edit at a non-empty pointer; None when the operation fails. */
  function EditAt(doc: Json, p: Pointer, edit: Edit): Option<Json>
    requires p != []
    decreases |p|
  {
    if |p| == 1 then EditMember(doc, p[0], edit) else
      match doc
      case JObject(ms) =>
        if p[0] in ms && !(edit.Add? && ms[p[0]] == JNull) then
          var child :- EditAt(ms[p[0]], p[1..], edit);
          Some(JObject(ms[p[0] := child]))
        else if edit.Add? then
          var child :- EditAt(NewContainer(p[1]), p[1..], edit);
          Some(JObject(ms[p[0] := child]))
        else if edit.Remove? then Some(doc)
        else None
      case JArray(items) =>
        var i := if p[0] == "-" then Some(|items|) else ArrayIndex(p[0]);
        if i.Some? && i.value < |items| then
          var child :- EditAt(items[i.value], p[1..], edit);
          Some(JArray(items[i.value := child]))
        else if edit.Add? && i.Some? then
          var child :- EditAt(NewContainer(p[1]), p[1..], edit);
          Some(JArray(items + Nulls(i.value - |items|) + [child]))
        else if edit.Remove? then Some(doc)
        else None
      case _ => if edit.Remove? then Some(doc) else None
  }

  /** One operation of a patch document, as written on the wire. */
  datatype WireOp = WireOp(op: string, path: string, value: Option<Json>, from: Option<string>)

  function EditDocument(doc: Json, p: Pointer, edit: Edit): Option<Json> {
    if p != [] then EditAt(doc, p, edit) else
      match edit
      case Add(v) => Some(v)
      case Replace(v) => Some(v)
      case Test(v) => if doc == v then Some(doc) else None
      case Remove => None
  }

  function ApplyOp(doc: Json, op: WireOp): Option<Json> {
    var p :- ParsePointer(op.path);
    if op.op == "remove" then EditDocument(doc, p, Remove)
    else if op.op == "add" then var v :- op.value; EditDocument(doc, p, Add(v))
    else if op.op == "replace" then var v :- op.value; EditDocument(doc, p, Replace(v))
    else if op.op == "test" then var v :- op.value; EditDocument(doc, p, Test(v))
    else if op.op == "copy" then
      var from :- op.from;
      var source :- ParsePointer(from);
      var v :- Get(doc, source);
      EditDocument(doc, p, Add(v))
    else if op.op == "move" then
      var from :- op.from;
      var source :- ParsePointer(from);
      var v :- Get(doc, source);
      if source < p then None else
        var without :- EditDocument(doc, source, Remove);
        EditDocument(without, p, Add(v))
    else None
  }

  /** Operations apply in order; the first failure fails the patch. */
  function ApplyOps(doc: Json, ops: seq<WireOp>): Option<Json>
    decreases |ops|
  {
    if ops == [] then Some(doc) else
      var next :- ApplyOp(doc, ops[0]);
      ApplyOps(next, ops[1..])
  }

  lemma {:induction false} ApplyOpsConcat(doc: Json, a: seq<WireOp>, b: seq<WireOp>)
    ensures ApplyOps(doc, a + b) ==
            (var mid := ApplyOps(doc, a); if mid.Some? then ApplyOps(mid.value, b) else None)
    decreases |a|
  {
    if a == [] {
      assert a + b == b;
    } else {
      assert (a + b)[0] == a[0] && (a + b)[1..] == a[1..] + b;
      var next := ApplyOp(doc, a[0]);
      if next.Some? {
        ApplyOpsConcat(next.value, a[1..], b);
      }
    }
  }

  // ---- what an add creates on its way ---------------------------------------------------

  /** The container above a single token that an add has put its value into. */
  function Holding(below: string, v: Json): Json {
    if below == "-" || below == "0" then JArray([v]) else JObject(map[below := v])
  }

  /** An add below a member that is absent or null creates it: a list above "-" or an index, else an object. */
  lemma AddCreatesMember(ms: map<string, Json>, key: string, below: string, v: Json)
    requires key !in ms || ms[key] == JNull
    ensures var after := EditAt(JObject(ms), [key, below], Add(v));
            && (ArrayIndex(below) == None || below == "0" ==> after == Some(JObject(ms[key := Holding(below, v)])))
            && forall i: nat | below == Digits(i) ::
                 after == Some(JObject(ms[key := JArray(seq(i, _ => JNull) + [v])]))
  {
    assert [key, below][1..] == [below];
    AddIntoNew(below, v);
  }

  /** An add below an element behind the end of a list fills the gap with nulls and creates the element. */
  lemma AddPadsList(items: seq<Json>, i: nat, below: string, v: Json)
    requires |items| <= i
    ensures var after := EditAt(JArray(items), [Digits(i), below], Add(v));
            && after.Some? && after.value.JArray? && |after.value.items| == i + 1
            && after.value.items[..|items|] == items
            && (forall j | |items| <= j < i :: after.value.items[j] == JNull)
            && EditAt(NewContainer(below), [below], Add(v)) == Some(after.value.items[i])
            && (ArrayIndex(below) == None || below == "0" ==> after.value.items[i] == Holding(below, v))
  {
    assert [Digits(i), below][1..] == [below] && Digits(i) != "-";
    ArrayIndexIffDigits(Digits(i), i);
    AddIntoNew(below, v);
  }

  lemma AddIntoNew(below: string, v: Json)
    ensures EditAt(NewContainer(below), [below], Add(v)).Some?
    ensures ArrayIndex(below) == None || below == "0" ==>
              EditAt(NewContainer(below), [below], Add(v)) == Some(Holding(below, v))
    ensures forall i: nat | below == Digits(i) ::
              EditAt(NewContainer(below), [below], Add(v)) == Some(JArray(seq(i, _ => JNull) + [v]))
  {
    assert Digits(0) == "0";
    ArrayIndexIffDigits("0", 0);
    forall i: nat | below == Digits(i)
      ensures EditAt(NewContainer(below), [below], Add(v)) == Some(JArray(seq(i, _ => JNull) + [v]))
    {
      ArrayIndexIffDigits(below, i);
      assert below != "-";
      var nulls := Nulls(i);
      assert nulls == seq(i, _ => JNull) && nulls[..i] + [v] + nulls[i..] == nulls + [v];
    }
    assert [] + [v] == [v];
  }

  /** Behind the end of a list is at "-" as well as at its length. */
  lemma EndIsLength(items: seq<Json>, below: string, v: Json)
    ensures EditAt(JArray(items), ["-", below], Add(v)) == EditAt(JArray(items), [Digits(|items|), below], Add(v))
  {
    assert ["-", below][1..] == [below] == [Digits(|items|), below][1..];
    assert Digits(|items|)[0] != '-' && Digits(|items|) != "-";
    ArrayIndexIffDigits(Digits(|items|), |items|);
  }

  // ---- removing what is not there ---------------------------------------------------------

  /** Removing something absent succeeds and changes nothing, unless it would be an element of a list. */
  lemma {:induction false} RemoveOfAbsent(doc: Json, p: Pointer)
    requires p != [] && Get(doc, p) == None
    requires var parent := Get(doc, p[..|p| - 1]); parent.Some? ==> !parent.value.JArray?
    ensures EditAt(doc, p, Remove) == Some(doc)
    decreases |p|
  {
    if |p| == 1 {
      assert p[..0] == [] && p[1..] == [];
      if doc.JObject? {
        assert doc.members - {p[0]} == doc.members;
      }
    } else {
      assert p[..|p| - 1][1..] == p[1..][..|p| - 2];
      match doc
      case JObject(ms) =>
        if p[0] in ms {
          RemoveOfAbsent(ms[p[0]], p[1..]);
          assert ms[p[0] := ms[p[0]]] == ms;
        }
      case JArray(items) =>
        var i := ArrayIndex(p[0]);
        if i.Some? && i.value < |items| {
          RemoveOfAbsent(items[i.value], p[1..]);
          assert items[i.value := items[i.value]] == items;
        }
      case _ =>
    }
  }

  /** The whole document can be tested, and replaced by a value, but not removed. */
  lemma WholeDocument(doc: Json, v: Json)
    ensures ApplyOp(doc, WireOp("add", "", Some(v), None)) == Some(v)
    ensures ApplyOp(doc, WireOp("replace", "", Some(v), None)) == Some(v)
    ensures ApplyOp(doc, WireOp("test", "", Some(v), None)) == if doc == v then Some(doc) else None
    ensures ApplyOp(doc, WireOp("remove", "", None, None)) == None
  {
    assert |"test"| == 4 && |"add"| == 3 && |"remove"| == 6 && |"replace"| == 7;
  }

  // ---- move and copy ---------------------------------------------------------------------

  /** A copy puts the value of one member into another; a move takes it out of the first (sections 4.4 and 4.5). */
  lemma CopyAndMove(ms: map<string, Json>, a: string, b: string)
    requires a in ms && a != b
    ensures ApplyOp(JObject(ms), WireOp("copy", PrintPointer([b]), None, Some(PrintPointer([a])))) ==
            Some(JObject(ms[b := ms[a]]))
    ensures ApplyOp(JObject(ms), WireOp("move", PrintPointer([b]), None, Some(PrintPointer([a])))) ==
            Some(JObject((ms - {a})[b := ms[a]]))
  {
    hide ParsePointer, PrintPointer;
    PointerRoundTrip([a]);
    PointerRoundTrip([b]);
    var doc, v := JObject(ms), ms[a];
    var without := JObject(ms - {a});
    assert [a][1..] == [] && Get(doc, [a]) == Some(v);
    assert EditDocument(doc, [b], Add(v)) == Some(JObject(ms[b := v]));
    assert EditDocument(doc, [a], Remove) == Some(without);
    assert EditDocument(without, [b], Add(v)) == Some(JObject((ms - {a})[b := v]));
    OtherNames();
  }

  lemma OtherNames()
    ensures "copy" !in ["remove", "add", "replace", "test"] && "move" !in ["remove", "add", "replace", "test", "copy"]
  {
    assert "copy"[0] != "test"[0] && "move"[0] != "test"[0] && "copy"[0] != "move"[0];
  }

  // ---- what an operation does ----------------------------------------------------------

  /** A successful edit does what RFC 6902 says at its own target. */
  lemma {:induction false} EditEffect(doc: Json, p: Pointer, edit: Edit)
    requires p != []
    requires EditAt(doc, p, edit).Some?
    ensures var after := EditAt(doc, p, edit).value;
            match edit
            case Add(v) => "-" !in p ==> Get(after, p) == Some(v)
            case Replace(v) => Get(doc, p).Some? && Get(after, p) == Some(v)
            case Test(v) => Get(doc, p) == Some(v) && after == doc
            case Remove => (Get(doc, p[..|p| - 1]).Some? && Get(doc, p[..|p| - 1]).value.JObject? ==>
                            Get(after, p).None?)
                           && (Get(doc, p).None? ==> after == doc)
    decreases |p|
  {
    if |p| == 1 {
      assert p[1..] == [] && p[..|p| - 1] == [];
      DashIsNoIndex();
      match doc
      case JObject(ms) =>
        if p[0] in ms {
          assert Get(ms[p[0]], p[1..]) == Some(ms[p[0]]);
        } else {
          assert ms - {p[0]} == ms;
        }
      case JArray(items) =>
        var i := ArrayIndex(p[0]);
        if i.Some? && i.value < |items| {
          assert Get(items[i.value], p[1..]) == Some(items[i.value]);
        }
      case _ =>
    } else {
      var q := p[1..];
      assert q[|q| - 1] == p[|p| - 1];
      assert p[..|p| - 1][1..] == q[..|q| - 1];
      match doc
      case JObject(ms) =>
        if p[0] in ms && !(edit.Add? && ms[p[0]] == JNull) {
          EditEffect(ms[p[0]], q, edit);
          assert edit.Remove? || edit.Test? ==> ms[p[0] := ms[p[0]]] == ms;
        } else if edit.Add? {
          EditEffect(NewContainer(p[1]), q, edit);
        }
      case JArray(items) =>
        DashIsNoIndex();
        var i := ArrayIndex(p[0]);
        if i.Some? && i.value < |items| {
          EditEffect(items[i.value], q, edit);
          assert items[i.value := items[i.value]] == items;
        } else if edit.Add? && i.Some? {
          EditEffect(NewContainer(p[1]), q, edit);
        }
      case _ =>
    }
  }

  /** An edit acts on the container of its target and nowhere else on the way. */
  lemma {:induction false} EditAtParent(doc: Json, p: Pointer, edit: Edit)
    requires p != []
    requires var parent := Get(doc, p[..|p| - 1]); parent.Some? && (parent.value.JObject? || parent.value.JArray?)
    ensures var before := EditMember(Get(doc, p[..|p| - 1]).value, p[|p| - 1], edit);
            && (EditAt(doc, p, edit).Some? <==> before.Some?)
            && (before.Some? ==> Get(EditAt(doc, p, edit).value, p[..|p| - 1]) == before)
    decreases |p|
  {
    DashIsNoIndex();
    if |p| == 1 {
      assert p[..0] == [];
    } else {
      var q := p[1..];
      assert q[|q| - 1] == p[|p| - 1] && p[..|p| - 1][1..] == q[..|q| - 1];
      match doc
      case JObject(ms) =>
        assert |q| == 1 ==> Get(ms[p[0]], q[..0]) == Some(ms[p[0]]);
        EditAtParent(ms[p[0]], q, edit);
      case JArray(items) =>
        EditAtParent(items[ArrayIndex(p[0]).value], q, edit);
    }
  }

  /** What an edit at an index leaves of a list. */
  predicate ListEdited(items: seq<Json>, i: nat, edit: Edit, elements: seq<Json>) {
    match edit
    case Add(v) =>
      && i <= |items| && |elements| == |items| + 1 && elements[i] == v
      && (forall j | 0 <= j < i :: elements[j] == items[j])
      && (forall j | i <= j < |items| :: elements[j + 1] == items[j])
    case Remove =>
      if i < |items| then
        && |elements| == |items| - 1
        && (forall j | 0 <= j < i :: elements[j] == items[j])
        && (forall j | i < j < |items| :: elements[j - 1] == items[j])
      else elements == items
    case Replace(v) =>
      && i < |items| && |elements| == |items| && elements[i] == v
      && (forall j | 0 <= j < |items| && j != i :: elements[j] == items[j])
    case Test(v) => i < |items| && items[i] == v && elements == items
  }

  /** The elements before the target of an edit stay, and those behind it move along. */
  lemma ArrayEditEffect(doc: Json, p: Pointer, edit: Edit, items: seq<Json>, i: nat)
    requires p != [] && Get(doc, p[..|p| - 1]) == Some(JArray(items)) && ArrayIndex(p[|p| - 1]) == Some(i)
    requires EditAt(doc, p, edit).Some?
    ensures var after := Get(EditAt(doc, p, edit).value, p[..|p| - 1]);
            after.Some? && after.value.JArray? &&
            var elements := after.value.items;
            ListEdited(items, i, edit, elements)
  {
    hide ListEdited, EditArray;
    EditAtParent(doc, p, edit);
    ListEditEffect(items, p[|p| - 1], edit, i);
  }

  lemma ListEditEffect(items: seq<Json>, key: string, edit: Edit, i: nat)
    requires ArrayIndex(key) == Some(i) && EditArray(items, key, edit).Some?
    ensures var after := EditArray(items, key, edit).value;
            after.JArray? && ListEdited(items, i, edit, after.items)
  {
    DashIsNoIndex();
  }

  lemma DashIsNoIndex()
    ensures ArrayIndex("-").None?
  {
    assert !IsDigit("-"[0]);
  }

  /**
   An edit leaves alone every value whose pointer parts from its own at an object. With this an
   operation reaches only its own subtree.
   */
  lemma {:induction false} EditFrame(doc: Json, p: Pointer, edit: Edit, q: Pointer, k: nat)
    requires k < |p| && k < |q|
    requires p[..k] == q[..k] && p[k] != q[k]
    requires Get(doc, p[..k]).Some? && Get(doc, p[..k]).value.JObject?
    requires EditAt(doc, p, edit).Some?
    ensures Get(EditAt(doc, p, edit).value, q) == Get(doc, q)
    decreases |p|
  {
    if k > 0 {
      assert p[0] == p[..k][0] == q[..k][0] == q[0];
      assert p[..k][1..] == p[1..][..k - 1] && q[..k][1..] == q[1..][..k - 1];
      DashIsNoIndex();
      match doc
      case JObject(ms) => EditFrame(ms[p[0]], p[1..], edit, q[1..], k - 1);
      case JArray(items) => EditFrame(items[ArrayIndex(p[0]).value], p[1..], edit, q[1..], k - 1);
    }
  }

  /** The objects on the way to the target of an edit are still objects afterwards. */
  lemma {:induction false} EditKeepsObjects(doc: Json, p: Pointer, edit: Edit, k: nat)
    requires k < |p|
    requires Get(doc, p[..k]).Some? && Get(doc, p[..k]).value.JObject?
    requires EditAt(doc, p, edit).Some?
    ensures var g := Get(EditAt(doc, p, edit).value, p[..k]); g.Some? && g.value.JObject?
    decreases |p|
  {
    if k > 0 {
      assert p[..k][0] == p[0] && p[..k][1..] == p[1..][..k - 1];
      DashIsNoIndex();
      match doc
      case JObject(ms) => EditKeepsObjects(ms[p[0]], p[1..], edit, k - 1);
      case JArray(items) => EditKeepsObjects(items[ArrayIndex(p[0]).value], p[1..], edit, k - 1);
    }
  }

  /** Removing what was just added gives the document back. */
  lemma {:induction false} RemoveUndoesAdd(doc: Json, p: Pointer, v: Json)
    requires p != []
    requires var parent := Get(doc, p[..|p| - 1]);
             parent.Some? && (match parent.value
                              case JObject(ms) => p[|p| - 1] !in ms
                              case JArray(items) =>
                                ArrayIndex(p[|p| - 1]).Some? && ArrayIndex(p[|p| - 1]).value <= |items|
                              case _ => false)
    ensures EditAt(doc, p, Add(v)).Some?
    ensures EditAt(EditAt(doc, p, Add(v)).value, p, Remove) == Some(doc)
    decreases |p|
  {
    DashIsNoIndex();
    if |p| == 1 {
      match doc
      case JObject(ms) => assert ms[p[0] := v] - {p[0]} == ms;
      case JArray(items) =>
        var i := ArrayIndex(p[0]).value;
        var longer := items[..i] + [v] + items[i..];
        assert longer[..i] + longer[i + 1..] == items;
    } else {
      var q := p[1..];
      assert q[..|q| - 1] == p[..|p| - 1][1..] && q[|q| - 1] == p[|p| - 1];
      match doc
      case JObject(ms) =>
        RemoveUndoesAdd(ms[p[0]], q, v);
        assert ms[p[0]] != JNull by {
          assert |q| == 1 ==> Get(ms[p[0]], q[..0]) == Some(ms[p[0]]);
        }
        var child := EditAt(ms[p[0]], q, Add(v)).value;
        assert ms[p[0] := child][p[0] := ms[p[0]]] == ms;
      case JArray(items) =>
        var i := ArrayIndex(p[0]).value;
        RemoveUndoesAdd(items[i], q, v);
        var child := EditAt(items[i], q, Add(v)).value;
        assert items[i := child][i := items[i]] == items;
    }
  }
}
