/**
 * The owner-scoped cafe endpoint: GET reads the signed-in user's cafe, PUT
 * overwrites its name, address and phone. Neither touches any other cafe or
 * any other table.
 */
module CafeApi {
  import opened Common
  import opened Validation
  import opened Schema
  import opened Store

  /** A JSON reply: `{ ok: true, cafe }`, or `{ ok: false, error }` with a status.
      `DriverMessage` stands for the database driver's own error text. */
  datatype ErrorText = Code(code: string) | DriverMessage(cause: DbError)
  datatype Reply = Ok(cafe: Option<Cafe>) | Err(status: nat, error: ErrorText)

  const NotAuthenticatedReply: Reply := Err(401, Code("not_authenticated"))

  /** GET: 401 without a signed-in user, otherwise the first cafe the user owns,
      or null. */
  function GetCafe(session: Option<UserId>, st: Store): (r: Reply)
    ensures r == NotAuthenticatedReply <==> !Authenticated(session)
    ensures r.Ok? ==> r.cafe.Some? ==> r.cafe.value in st.cafes && r.cafe.value.ownerId == session.value
    ensures r.Ok? ==> (r.cafe.None? <==> forall i :: 0 <= i < |st.cafes| ==> st.cafes[i].ownerId != session.value)
  {
    if !Authenticated(session) then NotAuthenticatedReply else Ok(CafeOfOwner(st, session.value))
  }

  /** With one cafe per owner, GET returns the user's cafe whichever row it is. */
  lemma GetTheCafe(session: Option<UserId>, st: Store, i: nat)
    requires OwnersUnique(st.cafes) && Authenticated(session)
    requires i < |st.cafes| && st.cafes[i].ownerId == session.value
    ensures GetCafe(session, st) == Ok(Some(st.cafes[i]))
  {
    var r := CafeOfOwner(st, session.value);
    var j := FirstWhere(st.cafes, (c: Cafe) => c.ownerId == session.value).value;
    assert st.cafes[j].ownerId == session.value;
    if j != i {
      assert false;
    }
  }

  /** The body fields PUT reads. */
  datatype PutBody = PutBody(name: Field<string>, address: Field<string>, phone: Field<string>)

  /** How `.set()` treats one nullable column: an undefined field leaves it
      alone, null clears it, a string replaces it. */
  function SetColumn(prior: Option<string>, f: Field<string>): (r: Option<string>)
    requires !f.Mistyped?
    ensures f.Absent? ==> r == prior
    ensures f.Null? ==> r == None
    ensures f.Present? ==> r == Some(f.value)
  {
    match f
    case Absent => prior
    case Null => None
    case Present(v) => Some(v)
  }

  predicate Writable(body: PutBody) {
    body.name.Present? && !body.address.Mistyped? && !body.phone.Mistyped?
  }

  /** Whether the update gets past the column types: the fields are strings or
      missing, and the name and a phone sent are assignable to their varchar
      columns. The address is `text`, and the row's other columns are not written. */
  predicate Storable(body: PutBody) {
    && Writable(body) && Assignable(body.name.value, CafeNameWidth)
    && (body.phone.Present? ==> Assignable(body.phone.value, PhoneWidth))
  }

  /** The phone column after the update: as `SetColumn`, with a phone sent cut
      to the column's width. */
  function PhoneAfter(prior: Option<string>, f: Field<string>): (r: Option<string>)
    requires !f.Mistyped? && (f.Present? ==> Assignable(f.value, PhoneWidth))
    ensures f.Present? ==> r == Some(Assign(f.value, PhoneWidth))
    ensures !f.Present? ==> r == SetColumn(prior, f)
    ensures Within(prior, PhoneWidth) ==> Within(r, PhoneWidth)
  {
    if f.Present? then Some(Assign(f.value, PhoneWidth)) else SetColumn(prior, f)
  }

  /** One row after the update: name, address and phone from the body, every
      other column (`updated_at` included) as it was. */
  function Patched(c: Cafe, body: PutBody): (r: Cafe)
    requires Storable(body)
    ensures r == c.(name := r.name, address := r.address, phone := r.phone)
    ensures r.name == Assign(body.name.value, CafeNameWidth)
    ensures r.address == SetColumn(c.address, body.address)
    ensures r.phone == PhoneAfter(c.phone, body.phone)
    ensures CafeFits(c) ==> CafeFits(r)
  {
    c.(name := Assign(body.name.value, CafeNameWidth), address := SetColumn(c.address, body.address),
       phone := PhoneAfter(c.phone, body.phone))
  }

  /** `update cafes set ... where owner_id = owner`: every row of the owner patched. */
  function UpdateOwned(cafes: seq<Cafe>, owner: UserId, body: PutBody): (r: seq<Cafe>)
    requires Storable(body)
    ensures |r| == |cafes|
    ensures forall i :: 0 <= i < |cafes| ==>
      r[i] == (if cafes[i].ownerId == owner then Patched(cafes[i], body) else cafes[i])
  {
    seq(|cafes|, i requires 0 <= i < |cafes| =>
      if cafes[i].ownerId == owner then Patched(cafes[i], body) else cafes[i])
  }

  /** The update rewrites no id and no owner. */
  lemma UpdateKeepsKeys(cafes: seq<Cafe>, owner: UserId, body: PutBody)
    requires Storable(body)
    ensures forall i :: 0 <= i < |cafes| ==>
      UpdateOwned(cafes, owner, body)[i].id == cafes[i].id && UpdateOwned(cafes, owner, body)[i].ownerId == cafes[i].ownerId
  {
  }

  /** Patching the patched rows again changes nothing. */
  lemma UpdateIdempotent(cafes: seq<Cafe>, owner: UserId, body: PutBody)
    requires Storable(body)
    ensures UpdateOwned(UpdateOwned(cafes, owner, body), owner, body) == UpdateOwned(cafes, owner, body)
  {
    var once := UpdateOwned(cafes, owner, body);
    var twice := UpdateOwned(once, owner, body);
    assert forall i :: 0 <= i < |twice| ==> twice[i] == once[i];
  }

  /** Strings of the right type, but a name or phone sent too wide for its
      column by more than trailing spaces. */
  predicate TooWide(body: PutBody) {
    Writable(body) && !Storable(body)
  }

  /** PUT. The name must be truthy. A name or phone too wide for its column
      fails the update with status 500 before any row is matched, so also for
      a user without a cafe. That user otherwise gets `{ ok: true }` with no
      cafe: `Ok(None)` stands both for that reply, whose `cafe` key is left
      out, and for GET's explicit `cafe: null`. A value of another JSON type
      fails the owner's update with status 500. */
  function PutCafe(session: Option<UserId>, body: PutBody, st: Store): (r: (Reply, Store))
    ensures r.0.Err? ==> r.1 == st
    ensures r.0 == NotAuthenticatedReply <==> !Authenticated(session)
    ensures r.0 == Err(400, Code("name_required")) <==> Authenticated(session) && !Truthy(body.name)
    ensures r.1 == st.(cafes := r.1.cafes) && |r.1.cafes| == |st.cafes|
    ensures r.0.Ok? ==> Authenticated(session) && r.0.cafe == CafeOfOwner(r.1, session.value)
    ensures r.0.Ok? && CafeOfOwner(st, session.value).None? ==> r == (Ok(None), st)
    ensures r.0.Ok? && CafeOfOwner(st, session.value).Some? ==> Storable(body) && forall i :: 0 <= i < |st.cafes| ==>
      r.1.cafes[i] == (if st.cafes[i].ownerId == session.value then Patched(st.cafes[i], body) else st.cafes[i])
  {
    if !Authenticated(session) then (NotAuthenticatedReply, st)
    else if !Truthy(body.name) then (Err(400, Code("name_required")), st)
    else
      var owner := session.value;
      var owned := CafeOfOwner(st, owner).Some?;
      if TooWide(body) then (Err(500, DriverMessage(ValueTooLong)), st)
      else if !owned then (Ok(None), st)
      else if !Writable(body) then (Err(500, DriverMessage(ValueTooLong)), st)
      else
        var st' := st.(cafes := UpdateOwned(st.cafes, owner, body));
        assert forall i :: 0 <= i < |st.cafes| ==> (st'.cafes[i].ownerId == owner <==> st.cafes[i].ownerId == owner);
        (Ok(CafeOfOwner(st', owner)), st')
  }

  /** Which row of the owner's is the one GET finds. */
  lemma OwnedRow(st: Store, owner: UserId) returns (k: nat)
    requires OwnersUnique(st.cafes) && CafeOfOwner(st, owner).Some?
    ensures k < |st.cafes| && st.cafes[k] == CafeOfOwner(st, owner).value
    ensures forall i :: 0 <= i < |st.cafes| && st.cafes[i].ownerId == owner ==> i == k
  {
    k := FirstWhere(st.cafes, (c: Cafe) => c.ownerId == owner).value;
  }

  /** A PUT by a cafe owner fails exactly when a field is of the wrong JSON
      type, or the name or a phone sent runs past its column (300 and 50
      characters) with more than spaces. The owner's row plays no part. */
  lemma PutRejected(session: Option<UserId>, body: PutBody, st: Store)
    requires Authenticated(session) && Truthy(body.name)
    requires CafeOfOwner(st, session.value).Some?
    ensures PutCafe(session, body, st).0.Err? <==>
      || !Writable(body) || !Assignable(body.name.value, CafeNameWidth)
      || (body.phone.Present? && !Assignable(body.phone.value, PhoneWidth))
  {
  }

  /** For string fields, PUT fails exactly when the name or a phone sent is too
      wide for its column, whether or not the user owns a cafe. */
  lemma PutTooWide(session: Option<UserId>, body: PutBody, st: Store)
    requires Authenticated(session) && Truthy(body.name) && Writable(body)
    ensures PutCafe(session, body, st).0.Err? <==>
      !Assignable(body.name.value, CafeNameWidth) || (body.phone.Present? && !Assignable(body.phone.value, PhoneWidth))
  {
  }

  /** A successful PUT keeps the store consistent: ids and owners are untouched
      and every row still fits. */
  lemma {:induction false} PutConsistent(session: Option<UserId>, body: PutBody, st: Store)
    requires Consistent(st) && PutCafe(session, body, st).0.Ok?
    ensures Consistent(PutCafe(session, body, st).1)
  {
    if CafeOfOwner(st, session.value).Some? {
      UpdatedConsistent(st, session.value, body);
    }
  }

  lemma UpdatedConsistent(st: Store, owner: UserId, body: PutBody)
    requires Consistent(st) && Storable(body)
    ensures Consistent(st.(cafes := UpdateOwned(st.cafes, owner, body)))
  {
    var cafes := UpdateOwned(st.cafes, owner, body);
    UpdateKeepsKeys(st.cafes, owner, body);
    forall i | 0 <= i < |cafes|
      ensures cafes[i].id < st.nextCafeId && CafeFits(cafes[i])
    {
      assert CafeFits(st.cafes[i]);
    }
    forall i, j | 0 <= i < j < |cafes|
      ensures cafes[i].ownerId != cafes[j].ownerId
    {
      assert st.cafes[i].ownerId != st.cafes[j].ownerId;
    }
  }

  /** After a successful PUT by a cafe owner, GET returns the patched row, and
      that row is also what the PUT replied with. */
  lemma {:induction false} PutThenGet(session: Option<UserId>, body: PutBody, st: Store)
    requires Consistent(st) && PutCafe(session, body, st).0.Ok?
    requires CafeOfOwner(st, session.value).Some?
    ensures var r := PutCafe(session, body, st);
      var c := CafeOfOwner(st, session.value).value;
      Storable(body) && r.0 == Ok(Some(Patched(c, body))) && GetCafe(session, r.1) == r.0
  {
    var r := PutCafe(session, body, st);
    var k := OwnedRow(st, session.value);
    PutConsistent(session, body, st);
    assert r.1.cafes[k].ownerId == session.value;
    GetTheCafe(session, r.1, k);
  }

  /** Sending the same PUT twice leaves the store as the first one did. */
  lemma {:induction false} PutIdempotent(session: Option<UserId>, body: PutBody, st: Store)
    requires PutCafe(session, body, st).0.Ok?
    ensures var r := PutCafe(session, body, st); PutCafe(session, body, r.1) == r
  {
    var r := PutCafe(session, body, st);
    if CafeOfOwner(st, session.value).Some? {
      var owner := session.value;
      UpdateKeepsKeys(st.cafes, owner, body);
      UpdateIdempotent(st.cafes, owner, body);
      assert CafeOfOwner(r.1, owner).Some?;
    }
  }
}
