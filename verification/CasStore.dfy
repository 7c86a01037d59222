/**
 * The store commands of memcached.c and the unique ids (CAS) they compare.
 *
 * Every item that is linked into the cache gets a fresh id, and so does an item
 * whose value or staleness is changed in place. A client that read a value with
 * its id can later ask for a store to happen only if the id is still the same.
 * The model keeps all items ever linked, because connections hold references to
 * items that have been replaced, and it records with which value an id was given.
 */
module CasStore {
  import opened ByteStrings
  import Copies = ChunkCopy
  import opened Numbers
  import opened Options
  import Printing = Itoa

  type Key = string
  type Id = nat

  /** Where a value is: in the item, in a chain of chunks, or on disk behind a header item. */
  datatype Place = Whole | Chunked | OnDisk

  datatype Item = Item(key: Key, value: seq<Byte>, cas: nat, linked: bool, place: Place)

  /** `given` is a history variable: what an id stood for when it was handed out. */
  datatype State = State(casId: nat, items: map<Id, Item>, table: map<Key, Id>, given: map<nat, (Key, seq<Byte>)>)

  datatype Mode = Add | Set | Replace | Cas | Append | Prepend

  datatype Stored = Stored | NotStored | Exists | NotFound

  datatype Delta = Ok | NonNumeric | NoItem | CasMismatch | NoMemory

  // ----- the steps, on values -----

  /** get_cas_id, used for an item of the cache. */
  function Give(s: State, id: Id, it: Item): State {
    State(s.casId + 1, s.items[id := it.(cas := s.casId + 1)], s.table, s.given[s.casId + 1 := (it.key, it.value)])
  }

  /** do_item_link */
  function Link(s: State, id: Id, it: Item): State {
    Give(s, id, it.(linked := true)).(table := s.table[it.key := id])
  }

  function Get(s: State, id: Id): Item {
    if id in s.items then s.items[id] else Item("", [], 0, false, Whole)
  }

  function Find(s: State, key: Key): Id {
    if key in s.table then s.table[key] else 0
  }

  /** do_item_unlink of the item linked for a key. */
  function Unlink(s: State, key: Key): State {
    var id := Find(s, key);
    s.(items := s.items[id := Get(s, id).(linked := false)], table := s.table - {key})
  }

  /** do_item_replace */
  function ReplaceItem(s: State, id: Id, it: Item): State {
    Link(Unlink(s, it.key), id, it)
  }

  /** A store request: the new item, the id it names, whether the item it brings into the
      cache is chunked, and, for append and prepend, the item made to hold both values if
      there was memory for it. */
  datatype Request = Request(key: Key, id: Id, value: seq<Byte>, cas: nat, mode: Mode, setStale: bool,
    chunked: bool, joined: Option<Id>)

  function NewItem(r: Request): Item {
    Item(r.key, r.value, r.cas, false, if r.chunked then Chunked else Whole)
  }

  predicate CasOk(r: Request, was: Item) {
    r.cas == was.cas || (r.setStale && r.cas < was.cas)
  }

  /** Whether a request replaces the item it finds. */
  predicate Accepted(r: Request, was: Item) {
    match r.mode
    case Add => false
    case Set => true
    case Replace => true
    case Cas => r.cas != 0 && CasOk(r, was)
    case _ => (r.cas == 0 || r.cas == was.cas) && was.place != OnDisk && r.joined.Some?
  }

  /** The item a request brings into the cache in place of `was`. */
  function Brought(r: Request, was: Item): (Id, Item) {
    var it := NewItem(r);
    match r.mode
    case Append => (if r.joined.Some? then r.joined.value else 0, it.(value := Cut(was.value) + r.value))
    case Prepend => (if r.joined.Some? then r.joined.value else 0, it.(value := Cut(r.value) + was.value))
    case _ => (r.id, it)
  }

  function Cut(v: seq<Byte>): seq<Byte> {
    if |v| < 2 then [] else v[..|v| - 2]
  }

  function Refusal(r: Request, was: Item): Stored {
    if r.mode.Cas? || ((r.mode.Append? || r.mode.Prepend?) && r.cas != 0 && r.cas != was.cas) then Exists else NotStored
  }

  /** do_store_item */
  function Store(s: State, r: Request): (State, Stored) {
    if r.key in s.table then
      var was := Get(s, s.table[r.key]);
      if Accepted(r, was) then
        var (id, it) := Brought(r, was);
        (ReplaceItem(s, id, it), Stored)
      else (s, Refusal(r, was))
    else if r.mode.Add? || r.mode.Set? then
      (Link(s, r.id, NewItem(r)), Stored)
    else (s, if r.mode.Cas? then NotFound else NotStored)
  }

  /** The text of a number, padded to the room of the old value. */
  function Padded(text: seq<Byte>, n: nat): seq<Byte>
    requires |text| + 2 <= n
  {
    text + Blanks(n - |text| - 2) + CRLF
  }

  /** An increment or decrement: what the memory behind the value holds up to the next
      NUL, whether someone else holds the item, and the item made if it is replaced. */
  datatype Change = Change(key: Key, cas: nat, incr: bool, delta: U64, beyond: seq<Byte>, shared: bool,
    made: Option<Id>)

  /** The text of the new number, unless the value is not a number. */
  function NewText(c: Change, value: seq<Byte>): Option<seq<Byte>> {
    match SafeStrtoull(value + c.beyond)
    case None => None
    case Some(n) => Some(Text(NewNumber(c.incr, c.delta, n)))
  }

  /** The same for the item a change finds. */
  function TextFor(s: State, c: Change): Option<seq<Byte>> {
    NewText(c, Get(s, Find(s, c.key)).value)
  }

  /** do_add_delta */
  function AddDelta(s: State, c: Change): (State, Delta) {
    if c.key !in s.table then (s, NoItem)
    else
      var id := s.table[c.key];
      var it := Get(s, id);
      var text := NewText(c, it.value);
      if |it.value| <= 2 || it.place != Whole then (s, NonNumeric)
      else if c.cas != 0 && it.cas != c.cas then (s, CasMismatch)
      else if text.None? then (s, NonNumeric)
      else if |text.value| + 2 <= |it.value| && !c.shared then
        (Give(s, id, it.(value := Padded(text.value, |it.value|))), Ok)
      else if c.made.None? then (s, NoMemory)
      else
        var t := ReplaceItem(s, c.made.value, Item(c.key, text.value + CRLF, 0, false, Whole));
        (t.(items := t.items[id := Get(t, id).(cas := t.casId)]), Ok)
  }

  /** Marking an item stale gives it a new id. */
  function MarkStale(s: State, key: Key): State {
    Give(s, Find(s, key), Get(s, Find(s, key)))
  }

  /** Moving a value to disk links a header item, then gives it the id of the item it stands for. */
  function Offload(s: State, key: Key, id: Id): State {
    var it := Get(s, Find(s, key));
    var t := ReplaceItem(s, id, it.(place := OnDisk));
    t.(items := t.items[id := Get(t, id).(cas := it.cas)], given := s.given)
  }

  // ----- runs -----

  datatype Event =
    | Storing(r: Request)
    | Changing(c: Change)
    | Remove(key: Key)
    | Stale(key: Key)
    | ToDisk(key: Key, id: Id)
    | Burn

  /** Items are made with ids that are not in use, and hold at least a line end. */
  predicate Fresh(s: State, id: Id) {
    id !in s.items
  }

  predicate Enabled(s: State, e: Event) {
    match e
    case Storing(r) => Fresh(s, r.id) && (r.joined.Some? ==> Fresh(s, r.joined.value)) && |r.value| >= 2
    case Changing(c) => c.made.Some? ==> Fresh(s, c.made.value)
    case Remove(key) => key in s.table
    case Stale(key) => key in s.table
    case ToDisk(key, id) => key in s.table && Fresh(s, id)
    case Burn => true
  }

  function Next(s: State, e: Event): State {
    match e
    case Storing(r) => Store(s, r).0
    case Changing(c) => AddDelta(s, c).0
    case Remove(key) => Unlink(s, key)
    case Stale(key) => MarkStale(s, key)
    case ToDisk(key, id) => Offload(s, key, id)
    case Burn => s.(casId := s.casId + 1)
  }

  /** The table holds the linked items, and their ids were given with their values. */
  ghost predicate Inv(s: State) {
    && (forall k | k in s.table :: s.table[k] in s.items && s.items[s.table[k]].linked && s.items[s.table[k]].key == k)
    && (forall id | id in s.items && s.items[id].linked :: s.items[id].key in s.table && s.table[s.items[id].key] == id)
    && (forall id | id in s.items :: 0 < s.items[id].cas <= s.casId && s.items[id].cas in s.given)
    && (forall id | id in s.items :: s.given[s.items[id].cas].0 == s.items[id].key)
    && (forall id | id in s.items && s.items[id].linked :: s.given[s.items[id].cas].1 == s.items[id].value)
    && (forall c | c in s.given :: 0 < c <= s.casId)
    && (forall id | id in s.items :: |s.items[id].value| >= 2)
  }

  function Init(): State {
    State(0, map[], map[], map[])
  }

  /** What a client sees for a key: the id and the value. */
  function View(s: State, key: Key): Option<(nat, seq<Byte>)> {
    if key in s.table then Some((Get(s, s.table[key]).cas, Get(s, s.table[key]).value)) else None
  }

  ghost predicate Run(ss: seq<State>, es: seq<Event>) {
    && |ss| == |es| + 1 && ss[0] == Init()
    && (forall i | 0 <= i < |es| :: Enabled(ss[i], es[i]) && ss[i + 1] == Next(ss[i], es[i]))
  }

  // ----- what every step keeps -----

  lemma GiveInv(s: State, id: Id, it: Item)
    requires Inv(s) && id in s.items && it.key == s.items[id].key && it.linked == s.items[id].linked && |it.value| >= 2
    ensures Inv(Give(s, id, it))
  {}

  lemma UnlinkInv(s: State, key: Key)
    requires Inv(s) && key in s.table
    ensures Inv(Unlink(s, key))
  {}

  lemma LinkInv(s: State, id: Id, it: Item)
    requires Inv(s) && it.key !in s.table && Fresh(s, id) && |it.value| >= 2
    ensures Inv(Link(s, id, it))
  {}

  lemma ReplaceInv(s: State, id: Id, it: Item)
    requires Inv(s) && it.key in s.table && Fresh(s, id) && |it.value| >= 2
    ensures Inv(ReplaceItem(s, id, it))
  {
    UnlinkInv(s, it.key);
    LinkInv(Unlink(s, it.key), id, it);
  }

  lemma StoreInv(s: State, r: Request)
    requires Inv(s) && Enabled(s, Storing(r))
    ensures Inv(Store(s, r).0)
  {
    if r.key in s.table {
      var was := Get(s, s.table[r.key]);
      if Accepted(r, was) {
        var (id, it) := Brought(r, was);
        ReplaceInv(s, id, it);
      }
    } else if r.mode.Add? || r.mode.Set? {
      LinkInv(s, r.id, NewItem(r));
    }
  }

  lemma DeltaInv(s: State, c: Change)
    requires Inv(s) && Enabled(s, Changing(c))
    ensures Inv(AddDelta(s, c).0)
  {
    hide NewText, Inv;
    if c.key in s.table && TextFor(s, c).Some? {
      var id := s.table[c.key];
      TableItem(s, c.key);
      var it := Get(s, id);
      if Supersedes(s, c, id) {
        SupersedeInv(s, c, Item(c.key, TextFor(s, c).value + CRLF, 0, false, Whole));
      } else if |TextFor(s, c).value| + 2 <= |it.value| && !c.shared {
        GiveInv(s, id, it.(value := Padded(TextFor(s, c).value, |it.value|)));
      }
    }
  }

  lemma TableItem(s: State, key: Key)
    requires Inv(s) && key in s.table
    ensures s.table[key] in s.items && s.items[s.table[key]].linked && s.items[s.table[key]].key == key
  {}

  /** The new item takes the key, and the old one its id. */
  lemma SupersedeInv(s: State, c: Change, it: Item)
    requires Inv(s) && c.key in s.table && c.made.Some? && Fresh(s, c.made.value) && it.key == c.key && |it.value| >= 2
    ensures var id, t := s.table[c.key], ReplaceItem(s, c.made.value, it);
      && id in t.items && c.made.value in t.items
      && Inv(t.(items := t.items[id := t.items[id].(cas := t.items[c.made.value].cas)]))
  {
    ReplaceInv(s, c.made.value, it);
    TableItem(s, c.key);
    hide Inv;
    RenumberInv(ReplaceItem(s, c.made.value, it), s.table[c.key], c.made.value);
  }

  /** An unlinked item may take over the id of a linked one. */
  lemma RenumberInv(s: State, id: Id, from: Id)
    requires Inv(s) && id in s.items && from in s.items && !s.items[id].linked && s.items[from].key == s.items[id].key
    ensures Inv(s.(items := s.items[id := s.items[id].(cas := s.items[from].cas)]))
  {}

  lemma OffloadInv(s: State, key: Key, id: Id)
    requires Inv(s) && key in s.table && Fresh(s, id)
    ensures Inv(Offload(s, key, id))
  {
    ReplaceInv(s, id, s.items[s.table[key]].(place := OnDisk));
  }

  lemma NextInv(s: State, e: Event)
    requires Inv(s) && Enabled(s, e)
    ensures Inv(Next(s, e))
  {
    match e
    case Storing(r) => StoreInv(s, r);
    case Changing(c) => DeltaInv(s, c);
    case Remove(key) => UnlinkInv(s, key);
    case Stale(key) => GiveInv(s, s.table[key], s.items[s.table[key]]);
    case ToDisk(key, id) => OffloadInv(s, key, id);
    case Burn =>
  }

  lemma {:induction false} RunInv(ss: seq<State>, es: seq<Event>, i: nat)
    requires Run(ss, es) && i < |ss|
    ensures Inv(ss[i])
  {
    if i > 0 {
      RunInv(ss, es, i - 1);
      NextInv(ss[i - 1], es[i - 1]);
      assert ss[i - 1 + 1] == Next(ss[i - 1], es[i - 1]);
    }
  }

  // ----- ids only grow -----

  /** What one step may do to a key: nothing, remove it, or give it an id above all earlier ones. */
  ghost predicate Moves(s: State, t: State, key: Key) {
    && s.casId <= t.casId
    && (View(t, key) == View(s, key) || View(t, key) == None || View(t, key).value.0 > s.casId)
  }

  lemma ReplaceMoves(s: State, id: Id, it: Item, key: Key)
    requires Inv(s) && Fresh(s, id)
    ensures it.key in s.table ==> Moves(s, ReplaceItem(s, id, it), key)
    ensures it.key !in s.table ==> Moves(s, Link(s, id, it), key)
    ensures it.key in s.table ==> View(ReplaceItem(s, id, it), it.key) == Some((s.casId + 1, it.value))
  {}

  lemma StoreMoves(s: State, r: Request, key: Key)
    requires Inv(s) && Enabled(s, Storing(r))
    ensures Moves(s, Store(s, r).0, key)
  {
    hide Moves;
    assert Moves(s, s, key) by { Stays(s, key); }
    if r.key in s.table {
      var was := Get(s, s.table[r.key]);
      if Accepted(r, was) {
        var (id, it) := Brought(r, was);
        ReplaceMoves(s, id, it, key);
      }
    } else {
      ReplaceMoves(s, r.id, NewItem(r), key);
    }
  }

  lemma Stays(s: State, key: Key)
    ensures Moves(s, s, key)
  {}

  lemma DeltaMoves(s: State, c: Change, key: Key)
    requires Inv(s) && Enabled(s, Changing(c))
    ensures Moves(s, AddDelta(s, c).0, key)
  {
    hide NewText;
    if c.made.Some? && TextFor(s, c).Some? {
      ReplaceMoves(s, c.made.value, Item(c.key, TextFor(s, c).value + CRLF, 0, false, Whole), key);
    }
  }

  lemma NextMoves(s: State, e: Event, key: Key)
    requires Inv(s) && Enabled(s, e)
    ensures Moves(s, Next(s, e), key)
  {
    match e
    case Storing(r) => StoreMoves(s, r, key);
    case Changing(c) => DeltaMoves(s, c, key);
    case Remove(_) =>
    case Stale(_) =>
    case ToDisk(k, id) => ReplaceMoves(s, id, s.items[s.table[k]].(place := OnDisk), key);
    case Burn =>
  }

  ghost predicate Same(ss: seq<State>, key: Key, i: nat, m: nat)
    requires i <= m < |ss|
  {
    forall j | i <= j <= m :: View(ss[j], key) == View(ss[i], key)
  }

  /** From any point of a run on, a key is as it was all along, or gone, or has a newer id. */
  lemma {:induction false} ViewAfter(ss: seq<State>, es: seq<Event>, key: Key, i: nat, m: nat)
    requires Run(ss, es) && i <= m < |ss|
    ensures ss[i].casId <= ss[m].casId
    ensures Same(ss, key, i, m) || View(ss[m], key) == None || View(ss[m], key).value.0 > ss[i].casId
  {
    hide Inv, Next, Enabled, View;
    if m > i {
      ViewAfter(ss, es, key, i, m - 1);
      RunInv(ss, es, m - 1);
      OneStep(ss, es, m - 1);
      NextMoves(ss[m - 1], es[m - 1], key);
    }
  }

  lemma OneStep(ss: seq<State>, es: seq<Event>, i: nat)
    requires Run(ss, es) && i < |es|
    ensures Enabled(ss[i], es[i]) && ss[i + 1] == Next(ss[i], es[i])
  {}

  /** No id comes back: a key seen twice with one id kept its value all the time in between. */
  lemma NoAba(ss: seq<State>, es: seq<Event>, key: Key, i: nat, m: nat)
    requires Run(ss, es) && i <= m < |ss|
    requires View(ss[i], key).Some? && View(ss[m], key).Some? && View(ss[i], key).value.0 == View(ss[m], key).value.0
    ensures Same(ss, key, i, m)
  {
    ViewAfter(ss, es, key, i, m);
    RunInv(ss, es, i);
  }

  /** A change of value comes with a larger id. */
  lemma ChangeGrows(ss: seq<State>, es: seq<Event>, key: Key, i: nat, m: nat)
    requires Run(ss, es) && i <= m < |ss|
    requires View(ss[i], key).Some? && View(ss[m], key).Some? && View(ss[i], key).value.1 != View(ss[m], key).value.1
    ensures View(ss[i], key).value.0 < View(ss[m], key).value.0
  {
    ViewAfter(ss, es, key, i, m);
    RunInv(ss, es, i);
  }

  /** A compare-and-store that names the id a client read with a value is done exactly
      if the key kept that id, or has a newer one and stale values were asked for. Done
      on the id, it replaces exactly the value that was read. */
  lemma CasReplacesWhatWasRead(ss: seq<State>, es: seq<Event>, i: nat, n: nat, r: Request, v: seq<Byte>)
    requires Run(ss, es) && i <= n < |es| && es[n] == Storing(r) && r.mode == Cas
    requires View(ss[i], r.key) == Some((r.cas, v))
    ensures Store(ss[n], r).1 == Stored <==> View(ss[n], r.key).Some? && (Same(ss, r.key, i, n) || r.setStale)
    ensures Store(ss[n], r).1 == Stored && !r.setStale ==> View(ss[n], r.key) == Some((r.cas, v))
    ensures Store(ss[n], r).1 == Stored ==> View(ss[n + 1], r.key) == Some((ss[n].casId + 1, r.value))
    ensures Store(ss[n], r).1 != Stored ==> ss[n + 1] == ss[n]
  {
    RunInv(ss, es, i);
    RunInv(ss, es, n);
    OneStep(ss, es, n);
    ViewAfter(ss, es, r.key, i, n);
    CasOutcome(ss[n], r);
  }

  /** The outcome of a compare-and-store by what the key shows. */
  lemma CasOutcome(s: State, r: Request)
    requires Inv(s) && Enabled(s, Storing(r)) && r.mode == Cas
    ensures var now := View(s, r.key);
      Store(s, r).1 == Stored <==>
        now.Some? && r.cas != 0 && (r.cas == now.value.0 || (r.setStale && r.cas < now.value.0))
    ensures Store(s, r).1 == Stored ==> View(Store(s, r).0, r.key) == Some((s.casId + 1, r.value))
    ensures Store(s, r).1 != Stored ==> Store(s, r).0 == s
    ensures Store(s, r).1 == NotFound <==> View(s, r.key) == None
  {
    ReplaceMoves(s, r.id, NewItem(r), r.key);
  }

  /** The key's value is on disk. */
  predicate IsOnDisk(s: State, key: Key) {
    key in s.table && s.table[key] in s.items && s.items[s.table[key]].place == OnDisk
  }

  /** The key's value is in its item. */
  predicate InOnePiece(s: State, key: Key) {
    key in s.table && s.table[key] in s.items && s.items[s.table[key]].place == Whole
  }

  /** What a store request does, mode by mode, in terms of what the key shows before and after. */
  lemma StoreOutcome(s: State, r: Request)
    requires Inv(s) && Enabled(s, Storing(r))
    ensures var (t, res) := Store(s, r);
      var was, now := View(s, r.key), View(t, r.key);
      && (res != Stored ==> t == s)
      && (res == Stored ==> now.Some? && now.value.0 == s.casId + 1 && t.casId == s.casId + 1)
      && (res == Stored ==> !IsOnDisk(t, r.key) && InOnePiece(t, r.key) == !r.chunked)
      && match r.mode
         case Set => res == Stored && now.value.1 == r.value
         case Add =>
           && res == (if was.None? then Stored else NotStored)
           && (res == Stored ==> now.value.1 == r.value)
         case Replace =>
           && res == (if was.Some? then Stored else NotStored)
           && (res == Stored ==> now.value.1 == r.value)
         case Cas =>
           && res == (if was.None? then NotFound
                      else if r.cas == 0 then Exists
                      else if r.cas == was.value.0 || (r.setStale && r.cas < was.value.0) then Stored
                      else Exists)
           && (res == Stored ==> now.value.1 == r.value)
         case _ =>
           && res == (if was.None? then NotStored
                      else if r.cas != 0 && r.cas != was.value.0 then Exists
                      else if IsOnDisk(s, r.key) || r.joined.None? then NotStored
                      else Stored)
           && (res == Stored ==> |was.value.1| >= 2)
           && (res == Stored && r.mode == Append ==>
                 now.value.1 == was.value.1[..|was.value.1| - 2] + r.value)
           && (res == Stored && r.mode == Prepend ==>
                 now.value.1 == r.value[..|r.value| - 2] + was.value.1)
  {
    if r.key in s.table {
      var was := s.items[s.table[r.key]];
      if Accepted(r, was) {
        var (id, it) := Brought(r, was);
        ReplaceMoves(s, id, it, r.key);
      }
    }
  }

  /** What append and prepend leave is what the copies of the two values give. */
  lemma JoinsAreCopies(s: State, r: Request)
    requires Inv(s) && Enabled(s, Storing(r)) && (r.mode == Append || r.mode == Prepend) && Store(s, r).1 == Stored
    ensures var was, now := View(s, r.key), View(Store(s, r).0, r.key);
      && was.Some? && now.Some? && |was.value.1| >= 2
      && now.value.1 == Copies.Joined(r.mode == Append, was.value.1, r.value)
  {
    hide Inv, Store, View;
    StoreOutcome(s, r);
  }

  /** What the other events do to their key. */
  lemma OtherOutcomes(s: State, e: Event)
    requires Inv(s) && Enabled(s, e) && (e.Remove? || e.Stale? || e.ToDisk?)
    ensures var was, now := View(s, e.key), View(Next(s, e), e.key);
      && was.Some?
      && (e.Remove? ==> now == None)
      && (e.Stale? ==> now == Some((s.casId + 1, was.value.1)) && IsOnDisk(Next(s, e), e.key) == IsOnDisk(s, e.key))
      && (e.ToDisk? ==> now == was && IsOnDisk(Next(s, e), e.key))
  {}

  // ----- what a connection that holds an item sees -----

  /** The item's value is the one its id was given with. */
  ghost predicate Honest(s: State, id: Id) {
    id in s.items && s.items[id].cas in s.given && s.given[s.items[id].cas].1 == s.items[id].value
  }

  /** The change replaces the item it finds by another one. */
  predicate Supersedes(s: State, c: Change, id: Id) {
    && c.key in s.table && s.table[c.key] == id && TextFor(s, c).Some? && c.made.Some?
    && |Get(s, id).value| > 2 && Get(s, id).place == Whole && (c.cas == 0 || c.cas == Get(s, id).cas)
    && (c.shared || |TextFor(s, c).value| + 2 > |Get(s, id).value|)
  }

  lemma ReplaceHonest(s: State, made: Id, it: Item, id: Id)
    requires Inv(s) && Fresh(s, made) && Honest(s, id)
    ensures it.key in s.table ==> Honest(ReplaceItem(s, made, it), id)
    ensures it.key !in s.table ==> Honest(Link(s, made, it), id)
  {}

  lemma StoreHonest(s: State, r: Request, id: Id)
    requires Inv(s) && Enabled(s, Storing(r)) && Honest(s, id)
    ensures Honest(Store(s, r).0, id)
  {
    hide Honest;
    if r.key in s.table {
      var was := Get(s, s.table[r.key]);
      if Accepted(r, was) {
        var (made, it) := Brought(r, was);
        ReplaceHonest(s, made, it, id);
      }
    } else {
      ReplaceHonest(s, r.id, NewItem(r), id);
    }
  }

  /** The item that an increment or decrement replaces takes over the new item's id. */
  lemma SupersededItem(s: State, c: Change, id: Id)
    requires Inv(s) && Enabled(s, Changing(c)) && Supersedes(s, c, id)
    ensures var t := AddDelta(s, c).0;
      id in t.items && t.items[id] == s.items[id].(linked := false, cas := s.casId + 1)
      && s.casId + 1 in t.given && t.given[s.casId + 1].1 == TextFor(s, c).value + CRLF
  {
    hide NewText;
  }

  lemma DeltaHonest(s: State, c: Change, id: Id)
    requires Inv(s) && Enabled(s, Changing(c)) && Honest(s, id)
    ensures Honest(AddDelta(s, c).0, id) <==> !(Supersedes(s, c, id) && TextFor(s, c).value + CRLF != s.items[id].value)
  {
    hide NewText;
    if Supersedes(s, c, id) {
      SupersededItem(s, c, id);
    } else if c.made.Some? && TextFor(s, c).Some? {
      ReplaceHonest(s, c.made.value, Item(c.key, TextFor(s, c).value + CRLF, 0, false, Whole), id);
    }
  }

  /** An item, linked or only held, stops being honest exactly when an increment or
      decrement replaces it by one with another text: it is then given the new item's id. */
  lemma HonestStep(s: State, e: Event, id: Id)
    requires Inv(s) && Enabled(s, e) && Honest(s, id)
    ensures Honest(Next(s, e), id) <==>
      !(e.Changing? && Supersedes(s, e.c, id) && TextFor(s, e.c).value + CRLF != s.items[id].value)
  {
    hide Supersedes;
    match e
    case Storing(r) => StoreHonest(s, r, id);
    case Changing(c) => DeltaHonest(s, c, id);
    case Remove(_) =>
    case Stale(_) =>
    case ToDisk(k, made) => ReplaceHonest(s, made, s.items[s.table[k]].(place := OnDisk), id);
    case Burn =>
  }

  /** An item still held has the value "9" and the id of the value "10". */
  ghost predicate Mixed(s: State, key: Key) {
    && 7 in s.items && s.items[7] == Item(key, [57] + CRLF, 2, false, Whole)
    && View(s, key) == Some((2, [49, 48] + CRLF))
    && Store(s, Request(key, 9, [48] + CRLF, s.items[7].cas, Cas, false, false, None)).1 == Stored
  }

  /** So a connection that held the item can report the old value with the new id, and
      a store that names this id then replaces a value the client never saw. */
  lemma HeldItemMixesIds(key: Key)
    ensures exists ss: seq<State>, es: seq<Event> :: Run(ss, es) && |es| == 2 && Mixed(ss[2], key)
  {
    var e1 := Storing(Request(key, 7, [57] + CRLF, 0, Set, false, false, None));
    var c := Change(key, 0, true, 1, [], true, Some(8));
    var e2 := Changing(c);
    NinePlusOne(c);
    hide NewText;
    var s1 := Next(Init(), e1);
    var s2 := Next(s1, e2);
    var ss, es := [Init(), s1, s2], [e1, e2];
    assert Run(ss, es) && Mixed(ss[2], key);
  }

  lemma NinePlusOne(c: Change)
    requires c.incr && c.delta == 1 && c.beyond == []
    ensures NewText(c, [57] + CRLF) == Some([49, 48])
  {
    assert Printing.Decimal(9) == "9" && Printing.Decimal(10) == "1" + "0";
    assert Text(9) == [57] && Text(10) == [49, 48];
    ReadsBack(9, 0, []);
    assert Text(9) + Blanks(0) + CRLF + [] == [57] + CRLF + c.beyond;
  }

  // ----- what increments and decrements count -----

  /** The value is the text of a number, padded with blanks. */
  ghost predicate Prints(value: seq<Byte>, n: U64) {
    exists pad: nat :: value == Text(n) + Blanks(pad) + CRLF
  }

  /** A change that is done finds a number and leaves, under the next id, the text of
      the new number. */
  lemma DeltaPrints(s: State, c: Change)
    requires Inv(s) && Enabled(s, Changing(c)) && AddDelta(s, c).1 == Ok
    ensures var was, now := View(s, c.key), View(AddDelta(s, c).0, c.key);
      && was.Some? && now.Some? && now.value.0 == s.casId + 1
      && var found := SafeStrtoull(was.value.1 + c.beyond);
      && found.Some?
      && var n := if c.incr then (found.value + c.delta) % Printing.TWO64
                  else if c.delta <= found.value then found.value - c.delta
                  else 0;
      && Prints(now.value.1, n)
      && |now.value.1| == if c.shared || |Text(n)| + 2 > |was.value.1| then |Text(n)| + 2 else |was.value.1|
  {
    hide SafeStrtoull, Inv, View, AddDelta, Prints, Enabled;
    DeltaPutsNumber(s, c);
  }

  lemma DeltaPutsNumber(s: State, c: Change)
    requires Inv(s) && Enabled(s, Changing(c)) && AddDelta(s, c).1 == Ok
    ensures var was, now := View(s, c.key), View(AddDelta(s, c).0, c.key);
      && was.Some? && now.Some? && now.value.0 == s.casId + 1
      && var found := SafeStrtoull(was.value.1 + c.beyond);
      && found.Some?
      && var n := NewNumber(c.incr, c.delta, found.value);
      && Prints(now.value.1, n)
      && |now.value.1| == if c.shared || |Text(n)| + 2 > |was.value.1| then |Text(n)| + 2 else |was.value.1|
  {
    var t, was := AddDelta(s, c).0, View(s, c.key).value.1;
    hide SafeStrtoull, Inv, Text;
    var n := NewNumber(c.incr, c.delta, SafeStrtoull(was + c.beyond).value);
    if |Text(n)| + 2 <= |was| && !c.shared {
      assert View(t, c.key).value.1 == Text(n) + Blanks(|was| - |Text(n)| - 2) + CRLF;
    } else {
      assert View(t, c.key).value.1 == Text(n) + CRLF == Text(n) + Blanks(0) + CRLF;
    }
  }

  /** Whoever reads such a value finds its number, unless the number is 2^63 or more and a
      dash lies behind the value before the next NUL. */
  lemma PrintsReads(value: seq<Byte>, n: U64, beyond: seq<Byte>)
    requires Prints(value, n)
    ensures SafeStrtoull(value + beyond) == if n >= TWO63 && HasDash(beyond) then None else Some(n)
  {
    hide SafeStrtoull, Text;
    var pad: nat :| value == Text(n) + Blanks(pad) + CRLF;
    ReadsBack(n, pad, beyond);
  }

  /** The key an event is about, if any. */
  function Subject(e: Event): Option<Key> {
    match e
    case Storing(r) => Some(r.key)
    case Changing(c) => Some(c.key)
    case Remove(key) => Some(key)
    case Stale(key) => Some(key)
    case ToDisk(key, _) => Some(key)
    case Burn => None
  }

  lemma ReplaceElsewhere(s: State, id: Id, it: Item, key: Key)
    requires Inv(s) && Fresh(s, id) && it.key != key
    ensures View(Link(s, id, it), key) == View(s, key)
    ensures it.key in s.table ==>
      View(ReplaceItem(s, id, it), key) == View(s, key) && View(Unlink(s, it.key), key) == View(s, key)
  {}

  lemma StoreElsewhere(s: State, r: Request, key: Key)
    requires Inv(s) && Enabled(s, Storing(r)) && r.key != key
    ensures View(Store(s, r).0, key) == View(s, key)
  {
    hide Inv, ReplaceItem, Link, View;
    if r.key in s.table {
      var (id, it) := Brought(r, Get(s, s.table[r.key]));
      if Accepted(r, Get(s, s.table[r.key])) { ReplaceElsewhere(s, id, it, key); }
    } else {
      ReplaceElsewhere(s, r.id, NewItem(r), key);
    }
  }

  lemma DeltaElsewhere(s: State, c: Change, key: Key)
    requires Inv(s) && Enabled(s, Changing(c)) && c.key != key
    ensures View(AddDelta(s, c).0, key) == View(s, key)
  {
    hide NewText;
    if c.made.Some? && TextFor(s, c).Some? {
      ReplaceElsewhere(s, c.made.value, Item(c.key, TextFor(s, c).value + CRLF, 0, false, Whole), key);
    }
  }

  lemma OtherKey(s: State, e: Event, key: Key)
    requires Inv(s) && Enabled(s, e) && Subject(e) != Some(key)
    ensures View(Next(s, e), key) == View(s, key)
  {
    hide NewText, Store, AddDelta;
    match e
    case Storing(r) => StoreElsewhere(s, r, key);
    case Changing(c) => DeltaElsewhere(s, c, key);
    case Remove(k) =>
    case Stale(k) =>
    case ToDisk(k, id) => ReplaceElsewhere(s, id, s.items[s.table[k]].(place := OnDisk), key);
    case Burn =>
  }

  /** An increment of the key. */
  predicate Increments(e: Event, key: Key) {
    e.Changing? && e.c.key == key && e.c.incr
  }

  /** What a step adds to the number of a key: an increment that is not refused. */
  function Added(s: State, e: Event, key: Key): nat {
    if Increments(e, key) && AddDelta(s, e.c).1 == Ok then e.c.delta else 0
  }

  ghost function Sum(ss: seq<State>, es: seq<Event>, key: Key, i: nat, m: nat): nat
    requires |ss| == |es| + 1 && i <= m < |ss|
    decreases m
  {
    if i == m then 0 else Sum(ss, es, key, i, m - 1) + Added(ss[m - 1], es[m - 1], key)
  }

  lemma CountStep(s: State, e: Event, key: Key, n: U64)
    requires Inv(s) && Enabled(s, e) && View(s, key).Some? && Prints(View(s, key).value.1, n)
    requires Increments(e, key) || Subject(e) != Some(key)
    ensures var now := View(Next(s, e), key);
      now.Some? && Prints(now.value.1, (n + Added(s, e, key)) % Printing.TWO64)
  {
    hide Inv, Prints, View, NewText, Enabled;
    if Increments(e, key) {
      PrintsReads(View(s, key).value.1, n, e.c.beyond);
      if AddDelta(s, e.c).1 == Ok { DeltaPrints(s, e.c); }
    } else {
      OtherKey(s, e, key);
    }
  }

  /** As long as nothing but increments is done to a key, every increment that is not
      refused counts exactly once, modulo 2^64, whatever is done to other keys. */
  lemma {:induction false} IncrementsCount(ss: seq<State>, es: seq<Event>, key: Key, n: U64, i: nat, m: nat)
    requires Run(ss, es) && i <= m < |ss|
    requires View(ss[i], key).Some? && Prints(View(ss[i], key).value.1, n)
    requires forall j | i <= j < m :: Increments(es[j], key) || Subject(es[j]) != Some(key)
    ensures var now := View(ss[m], key);
      now.Some? && Prints(now.value.1, (n + Sum(ss, es, key, i, m)) % Printing.TWO64)
    decreases m
  {
    hide Inv, Prints, View, Next, Enabled, Increments, Subject, Added;
    if m > i {
      IncrementsCount(ss, es, key, n, i, m - 1);
      RunInv(ss, es, m - 1);
      OneStep(ss, es, m - 1);
      var sofar := Sum(ss, es, key, i, m - 1);
      CountStep(ss[m - 1], es[m - 1], key, (n + sofar) % Printing.TWO64);
      ModAdd(n + sofar, Added(ss[m - 1], es[m - 1], key));
    }
  }

  lemma ModAdd(a: nat, b: nat)
    ensures (a % Printing.TWO64 + b) % Printing.TWO64 == (a + b) % Printing.TWO64
  {}

  /** A decrement of the key. */
  predicate Decrements(e: Event, key: Key) {
    e.Changing? && e.c.key == key && !e.c.incr
  }

  /** What the event takes from the key's number, as far as there is something to take. */
  ghost function Wanted(s: State, e: Event, key: Key): nat {
    if Decrements(e, key) && AddDelta(s, e.c).1 == Ok then e.c.delta else 0
  }

  /** What the decrements of a key that are not refused ask for. */
  ghost function Asked(ss: seq<State>, es: seq<Event>, key: Key, i: nat, m: nat): nat
    requires |ss| == |es| + 1 && i <= m < |ss|
    decreases m
  {
    if i == m then 0 else Asked(ss, es, key, i, m - 1) + Wanted(ss[m - 1], es[m - 1], key)
  }

  /** `n` less `d`, but not below zero. */
  function Less(n: U64, d: nat): U64 { if d <= n then n - d else 0 }

  lemma LessStep(s: State, e: Event, key: Key, n: U64)
    requires Inv(s) && Enabled(s, e) && View(s, key).Some? && Prints(View(s, key).value.1, n)
    requires Decrements(e, key) || Subject(e) != Some(key)
    ensures var now := View(Next(s, e), key);
      now.Some? && Prints(now.value.1, Less(n, Wanted(s, e, key)))
  {
    hide Inv, Prints, View, NewText, Enabled;
    if Decrements(e, key) {
      PrintsReads(View(s, key).value.1, n, e.c.beyond);
      if AddDelta(s, e.c).1 == Ok { DeltaPrints(s, e.c); }
    } else {
      OtherKey(s, e, key);
    }
  }

  /** As long as nothing but decrements is done to a key, its number is what it was less
      all they asked for, or zero if they asked for more. */
  lemma {:induction false} DecrementsCount(ss: seq<State>, es: seq<Event>, key: Key, n: U64, i: nat, m: nat)
    requires Run(ss, es) && i <= m < |ss|
    requires View(ss[i], key).Some? && Prints(View(ss[i], key).value.1, n)
    requires forall j | i <= j < m :: Decrements(es[j], key) || Subject(es[j]) != Some(key)
    ensures var now, asked := View(ss[m], key), Asked(ss, es, key, i, m);
      now.Some? && Prints(now.value.1, if asked <= n then n - asked else 0)
    decreases m
  {
    hide Inv, Prints, View, Next, Enabled, Decrements, Subject, Wanted;
    if m > i {
      DecrementsCount(ss, es, key, n, i, m - 1);
      RunInv(ss, es, m - 1);
      OneStep(ss, es, m - 1);
      LessStep(ss[m - 1], es[m - 1], key, Less(n, Asked(ss, es, key, i, m - 1)));
    }
  }

  /** When a change is done and when it is refused, and that a refused one changes nothing. */
  lemma DeltaOutcome(s: State, c: Change)
    requires Inv(s) && Enabled(s, Changing(c))
    ensures var (t, res) := AddDelta(s, c);
      var was := View(s, c.key);
      && (res != Ok ==> t == s)
      && (was.None? <==> res == NoItem)
      && (was.Some? ==>
            var value, number := was.value.1, SafeStrtoull(was.value.1 + c.beyond);
            if |value| <= 2 || !InOnePiece(s, c.key) then res == NonNumeric
            else if c.cas != 0 && c.cas != was.value.0 then res == CasMismatch
            else if number.None? then res == NonNumeric
            else
              var n := if c.incr then (number.value + c.delta) % Printing.TWO64 else Less(number.value, c.delta);
              res == if (c.shared || |Text(n)| + 2 > |value|) && c.made.None? then NoMemory else Ok)
  {
    hide SafeStrtoull, Text;
  }

  // ----- the code, step by step -----

  datatype CasResult = CasNone | CasMatch | CasBadval | CasStale

  class Cache {
    var casId: nat
    var items: map<Id, Item>
    var table: map<Key, Id>
    ghost var given: map<nat, (Key, seq<Byte>)>

    ghost function Snapshot(): State
      reads this
    {
      State(casId, items, table, given)
    }

    constructor ()
      ensures Snapshot() == Init()
    {
      casId, items, table, given := 0, map[], map[], map[];
    }

    /** Every key of the table leads to an item. */
    ghost predicate Closed()
      reads this
    {
      forall k | k in table :: table[k] in items
    }

    method GetCasId() returns (id: nat)
      modifies `casId
      ensures casId == old(casId) + 1 && id == casId
    {
      casId := casId + 1;
      return casId;
    }

    method DoItemLink(id: Id, it: Item)
      requires Closed()
      modifies this
      ensures Snapshot() == Link(old(Snapshot()), id, it) && Closed()
    {
      var cas := GetCasId();
      given := given[cas := (it.key, it.value)];
      items := items[id := it.(linked := true, cas := cas)];
      table := table[it.key := id];
    }

    method DoItemUnlink(key: Key)
      requires Closed() && key in table
      modifies `items, `table
      ensures Snapshot() == Unlink(old(Snapshot()), key) && Closed()
    {
      var id := table[key];
      items := items[id := items[id].(linked := false)];
      table := table - {key};
    }

    method DoItemReplace(id: Id, it: Item)
      requires Closed() && it.key in table
      modifies this
      ensures Snapshot() == ReplaceItem(old(Snapshot()), id, it) && Closed()
    {
      DoItemUnlink(it.key);
      DoItemLink(id, it);
    }

    method DoStoreItem(r: Request) returns (stored: Stored)
      requires Closed() && (r.key in table ==> items[table[r.key]].key == r.key)
      modifies this
      ensures (Snapshot(), stored) == Store(old(Snapshot()), r) && Closed()
    {
      stored := NotStored;
      var doStore, id, it := false, r.id, NewItem(r);
      if r.key in table {
        var was := items[table[r.key]];
        var res := if r.cas == 0 then CasNone
                   else if r.cas == was.cas then CasMatch
                   else if r.setStale && r.cas < was.cas then CasStale
                   else CasBadval;
        match r.mode {
          case Add =>
          case Cas =>
            if res == CasMatch || res == CasStale { doStore := true; } else { stored := Exists; }
          case Append =>
            if res != CasNone && res != CasMatch {
              stored := Exists;
            } else if was.place != OnDisk && r.joined.Some? {
              doStore, id, it := true, r.joined.value, it.(value := Cut(was.value) + r.value);
            }
          case Prepend =>
            if res != CasNone && res != CasMatch {
              stored := Exists;
            } else if was.place != OnDisk && r.joined.Some? {
              doStore, id, it := true, r.joined.value, it.(value := Cut(r.value) + was.value);
            }
          case Replace => doStore := true;
          case Set => doStore := true;
        }
        if doStore {
          DoItemReplace(id, it);
          stored := Stored;
        }
      } else {
        match r.mode {
          case Add => doStore := true;
          case Set => doStore := true;
          case Cas => stored := NotFound;
          case _ =>
        }
        if doStore {
          DoItemLink(id, it);
          stored := Stored;
        }
      }
    }

    /** The number in a value, changed and printed, as the `incr` buffer then holds it. */
    method PrintNew(c: Change, value: seq<Byte>) returns (text: Option<seq<Byte>>)
      ensures text == NewText(c, value)
    {
      var number := SafeStrtoull(value + c.beyond);
      if number.None? { return None; }
      var n := NewNumber(c.incr, c.delta, number.value);
      var buf := new char[Printing.INCR_MAX_STORAGE_LEN];
      Printing.U64TextFits(n);
      var length := Printing.ItoaU64(n, buf, 0);
      Printing.DecimalIsCanonical(n);
      assert buf[..length] == Printing.Decimal(n);
      return Some(Bytes(buf[..length]));
    }

    method DoAddDelta(c: Change) returns (res: Delta)
      requires Closed() && (c.key in table ==> items[table[c.key]].key == c.key)
      modifies this
      ensures (Snapshot(), res) == AddDelta(old(Snapshot()), c) && Closed()
    {
      hide NewText;
      if c.key !in table { return NoItem; }
      var id := table[c.key];
      var it := items[id];
      if |it.value| <= 2 || it.place != Whole { return NonNumeric; }
      if c.cas != 0 && it.cas != c.cas { return CasMismatch; }
      var text := PrintNew(c, it.value);
      if text.None? { return NonNumeric; }
      if |text.value| + 2 <= |it.value| && !c.shared {
        var cas := GetCasId();
        var value: seq<Byte> := text.value + Blanks(|it.value| - |text.value| - 2) + CRLF;
        given := given[cas := (it.key, value)];
        items := items[id := it.(cas := cas, value := value)];
      } else {
        if c.made.None? { return NoMemory; }
        DoItemReplace(c.made.value, Item(c.key, text.value + CRLF, 0, false, Whole));
        items := items[id := items[id].(cas := casId)];
      }
      res := Ok;
    }
  }
}
