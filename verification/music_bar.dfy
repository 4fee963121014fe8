/** The bar's notification stack: which notifications exist, which
    layer-shell window shows which of them, and the window requests each
    update sends. Windows are abstract numbers handed out by a counter
    (`Id::unique`); the requests an update returns are listed in order. */
module MusicBar {
  import opened Wrappers
  import opened Channel
  import opened NotifyServer
  import opened Notify
  import opened StackSpec
  import Ordering
  import Config
  import Bar

  /** A window request returned by an update. */
  datatype Effect =
    | OpenNotification(window: nat, margin: int)
    | OpenIndicator(window: nat, margin: int)
    | MarginChange(window: nat, margin: int)
    | CloseWindow(window: nat)
    | ScheduleRemove(id: nat, seconds: nat)
    | CheckOutput

  /** A handled message, or the panic the Rust code would raise. */
  datatype Outcome = Done(effects: seq<Effect>) | Panicked

  /** `timeout as u64` on an `i32`: sign extension, so a negative timeout
      becomes a huge number of seconds. */
  function TimeoutSeconds(t: I32): (s: nat)
    ensures t >= 0 ==> s == t
    ensures t < 0 ==> s == t + 0x1_0000_0000_0000_0000 && s >= 0x1_0000_0000_0000_0000 - 0x8000_0000
  {
    if t >= 0 then t else t + 0x1_0000_0000_0000_0000
  }

  /** The timer `UnitAdd` starts: one, unless the timeout is -1 (never expire). */
  function Schedule(unit: NotifyUnit): (e: seq<Effect>)
    ensures unit.timeout == -1 <==> e == []
    ensures e != [] ==> e == [ScheduleRemove(unit.id, TimeoutSeconds(unit.timeout))]
  {
    if unit.timeout != -1 then [ScheduleRemove(unit.id, TimeoutSeconds(unit.timeout))] else []
  }

  /** One close request per window, in the given order. */
  function CloseAll(ws: seq<nat>): (e: seq<Effect>)
    ensures |e| == |ws| && forall i :: 0 <= i < |ws| ==> e[i] == CloseWindow(ws[i])
  {
    if ws == [] then [] else [CloseWindow(ws[0])] + CloseAll(ws[1..])
  }

  /** The windows past the first `k` of `ws`. */
  function Surplus(ws: seq<nat>, k: nat): (s: seq<nat>)
    ensures |s| == if k < |ws| then |ws| - k else 0
    ensures forall i :: 0 <= i < |s| ==> s[i] == ws[k + i]
  {
    if k < |ws| then ws[k..] else []
  }

  /** `cached` after each window of `ws`, in turn, had the record bound to
      it copied in under the window id; a window with no record (or no
      binding) copies nothing. */
  function Cached(cached: map<nat, Info>, n: Records, showned: map<nat, nat>, ws: seq<nat>): map<nat, Info>
    decreases |ws|
  {
    if ws == [] then cached
    else
      var c := Cached(cached, n, showned, ws[..|ws| - 1]);
      var w := ws[|ws| - 1];
      if w in showned && showned[w] in n then c[w := n[showned[w]]] else c
  }

  lemma CachedAppend(cached: map<nat, Info>, n: Records, showned: map<nat, nat>, ws: seq<nat>, w: nat)
    requires w in showned
    ensures showned[w] in n ==> Cached(cached, n, showned, ws + [w]) == Cached(cached, n, showned, ws)[w := n[showned[w]]]
    ensures showned[w] !in n ==> Cached(cached, n, showned, ws + [w]) == Cached(cached, n, showned, ws)
  {
    assert (ws + [w])[..|ws|] == ws;
  }

  /** Over distinct windows the order does not matter: a window of `ws`
      whose record still exists is cached with that record, and every other
      cached window keeps its entry. */
  lemma {:induction false} CachedContents(cached: map<nat, Info>, n: Records, showned: map<nat, nat>, ws: seq<nat>)
    requires forall w :: w in ws ==> w in showned
    requires forall i, j :: 0 <= i < j < |ws| ==> ws[i] != ws[j]
    ensures forall w :: w in Cached(cached, n, showned, ws) <==> w in cached || (w in ws && showned[w] in n)
    ensures forall w :: w in ws && showned[w] in n ==> Cached(cached, n, showned, ws)[w] == n[showned[w]]
    ensures forall w :: w in cached && !(w in ws && showned[w] in n) ==> Cached(cached, n, showned, ws)[w] == cached[w]
    decreases |ws|
  {
    if ws != [] {
      var init, last := ws[..|ws| - 1], ws[|ws| - 1];
      assert ws == init + [last];
      assert forall i :: 0 <= i < |init| ==> init[i] != last;
      CachedContents(cached, n, showned, init);
      CachedAppend(cached, n, showned, init, last);
    }
  }

  /** Ids of the live records in the four shown slots. */
  function ShownSlots(n: Records): (s: set<nat>)
    ensures forall id :: id in s <==> id in n && !n[id].toDelete && n[id].counter < Config.MaxShownNotificationsCount
  {
    set id | id in n && n[id].counter < 4 && !n[id].toDelete
  }

  /** The margin moves `UnitAdd` sends when a window is still free: the
      records after the first of `now` get the windows in `wins` order,
      pairwise, as far as both last. */
  function MarginEffects(n: Records, now: seq<nat>, wins: seq<nat>): (e: seq<Effect>)
    requires forall i :: 0 <= i < |now| ==> now[i] in n
    ensures |e| == if |now| == 0 then 0 else Ordering.MinOf(|now| - 1, |wins|)
    ensures forall j :: 0 <= j < |e| ==> e[j] == MarginChange(wins[j], n[now[j + 1]].upper)
  {
    var k := if |now| == 0 then 0 else Ordering.MinOf(|now| - 1, |wins|);
    seq(k, j requires 0 <= j < k => MarginChange(wins[j], n[now[j + 1]].upper))
  }

  /** The window bindings `QuiteMode(false)` creates: the `i`-th record of
      `order` gets window `first + i`. */
  function Bindings(n: Records, order: seq<nat>, first: nat): (b: map<nat, nat>)
    requires forall i :: 0 <= i < |order| ==> order[i] in n
    ensures forall w :: w in b <==> first <= w < first + |order|
    ensures forall w :: w in b ==> b[w] == n[order[w - first]].unit.id
    decreases |order|
  {
    if order == [] then map[]
    else
      var rest := Bindings(n, order[1..], first + 1);
      assert forall w :: w in rest ==> order[1..][w - (first + 1)] == order[w - first];
      rest[first := n[order[0]].unit.id]
  }

  /** The open requests that go with `Bindings`. */
  function Opens(n: Records, order: seq<nat>, first: nat): (e: seq<Effect>)
    requires forall i :: 0 <= i < |order| ==> order[i] in n
    ensures |e| == |order|
    ensures forall i :: 0 <= i < |order| ==> e[i] == OpenNotification(first + i, n[order[i]].upper)
  {
    seq(|order|, i requires 0 <= i < |order| => OpenNotification(first + i, n[order[i]].upper))
  }

  /** The loop of `remove_notify` that walks the windows (`wins`, by bound
      id, descending) beside the live ids (`live`, descending): a window
      with a live id left takes it; a surplus window has its current record
      copied into `cached`, is bound to the removed id and closed. */
  method PairWindows(n: Records, showned: map<nat, nat>, cached: map<nat, Info>,
                     wins: seq<nat>, live: seq<nat>, removedId: nat)
    returns (showned2: map<nat, nat>, cached2: map<nat, Info>, closes: seq<Effect>)
    requires Ordering.Enumerates(wins, showned.Keys)
    ensures PairedUpTo(showned2, showned, wins, live, removedId, |wins|)
    ensures cached2 == Cached(cached, n, showned, Surplus(wins, |live|))
    ensures closes == CloseAll(Surplus(wins, |live|))
  {
    showned2, cached2, closes := showned, cached, [];
    var j := 0;
    assert Surplus(wins[..j], |live|) == [];
    while j < |wins|
      invariant 0 <= j <= |wins|
      invariant PairedUpTo(showned2, showned, wins, live, removedId, j)
      invariant cached2 == Cached(cached, n, showned, Surplus(wins[..j], |live|))
      invariant closes == CloseAll(Surplus(wins[..j], |live|))
    {
      showned2, cached2, closes := PairOnce(n, showned, cached, wins, live, removedId, j, showned2, cached2, closes);
      j := j + 1;
    }
    assert wins[..j] == wins;
  }

  /** One turn of the `remove_notify` window loop, for window `wins[j]`. */
  method PairOnce(n: Records, showned: map<nat, nat>, cached: map<nat, Info>,
                  wins: seq<nat>, live: seq<nat>, removedId: nat, j: nat,
                  showned1: map<nat, nat>, cached1: map<nat, Info>, closes1: seq<Effect>)
    returns (showned2: map<nat, nat>, cached2: map<nat, Info>, closes: seq<Effect>)
    requires j < |wins| && Ordering.Enumerates(wins, showned.Keys)
    requires PairedUpTo(showned1, showned, wins, live, removedId, j)
    requires cached1 == Cached(cached, n, showned, Surplus(wins[..j], |live|))
    requires closes1 == CloseAll(Surplus(wins[..j], |live|))
    ensures PairedUpTo(showned2, showned, wins, live, removedId, j + 1)
    ensures cached2 == Cached(cached, n, showned, Surplus(wins[..j + 1], |live|))
    ensures closes == CloseAll(Surplus(wins[..j + 1], |live|))
  {
    var w := wins[j];
    PairStep(showned1, showned, wins, live, removedId, j);
    SurplusStep(wins, |live|, j);
    if j < |live| {
      showned2, cached2, closes := showned1[w := live[j]], cached1, closes1;
    } else {
      CachedAppend(cached, n, showned, Surplus(wins[..j], |live|), w);
      CloseAllAppend(Surplus(wins[..j], |live|), w);
      var nid := showned1[w];
      cached2 := if nid in n then cached1[w := n[nid]] else cached1;
      showned2 := showned1[w := removedId];
      closes := closes1 + [CloseWindow(w)];
    }
  }

  /** The first `j` windows of `wins` are re-bound, the others untouched. */
  ghost predicate PairedUpTo(showned2: map<nat, nat>, showned: map<nat, nat>, wins: seq<nat>,
                             live: seq<nat>, removedId: nat, j: nat)
    requires j <= |wins| && Ordering.Enumerates(wins, showned.Keys)
  {
    showned2.Keys == showned.Keys &&
    (forall i :: 0 <= i < j ==> showned2[wins[i]] == if i < |live| then live[i] else removedId) &&
    (forall i :: j <= i < |wins| ==> showned2[wins[i]] == showned[wins[i]])
  }

  lemma PairStep(showned2: map<nat, nat>, showned: map<nat, nat>, wins: seq<nat>,
                 live: seq<nat>, removedId: nat, j: nat)
    requires j < |wins| && Ordering.Enumerates(wins, showned.Keys)
    requires PairedUpTo(showned2, showned, wins, live, removedId, j)
    ensures showned2[wins[j]] == showned[wins[j]]
    ensures PairedUpTo(showned2[wins[j] := if j < |live| then live[j] else removedId], showned, wins, live, removedId, j + 1)
  {
    assert forall i :: 0 <= i < |wins| && i != j ==> wins[i] != wins[j];
  }

  /** One more window walked: past the first `k`, it joins the surplus. */
  lemma SurplusStep(wins: seq<nat>, k: nat, j: nat)
    requires j < |wins|
    ensures j < k ==> Surplus(wins[..j + 1], k) == Surplus(wins[..j], k)
    ensures j >= k ==> Surplus(wins[..j + 1], k) == Surplus(wins[..j], k) + [wins[j]]
  {
  }

  lemma CloseAllAppend(ws: seq<nat>, w: nat)
    ensures CloseAll(ws + [w]) == CloseAll(ws) + [CloseWindow(w)]
  {
  }

  /** The `UnitAdd` loop when all four windows are in use: the windows, by
      bound id descending, take the shown-slot ids, by id descending,
      pairwise as far as both last. */
  method RebindShown(showned: map<nat, nat>, wins: seq<nat>, now: seq<nat>) returns (showned2: map<nat, nat>)
    requires Ordering.Enumerates(wins, showned.Keys)
    ensures showned2.Keys == showned.Keys
    ensures forall j :: 0 <= j < |wins| ==> showned2[wins[j]] == if j < |now| then now[j] else showned[wins[j]]
  {
    showned2 := showned;
    var j := 0;
    while j < |now| && j < |wins|
      invariant 0 <= j <= |wins|
      invariant showned2.Keys == showned.Keys
      invariant forall i :: 0 <= i < j ==> i < |now| && showned2[wins[i]] == now[i]
      invariant forall i :: j <= i < |wins| ==> showned2[wins[i]] == showned[wins[i]]
    {
      showned2 := showned2[wins[j] := now[j]];
      j := j + 1;
    }
  }

  /** The `UnitAdd` loop that zips the shown slots after the first with the
      windows and asks each window to move to its record's offset. */
  method MarginChanges(n: Records, now: seq<nat>, wins: seq<nat>) returns (effects: seq<Effect>)
    requires |now| >= 1 && forall i :: 0 <= i < |now| ==> now[i] in n
    ensures effects == MarginEffects(n, now, wins)
  {
    effects := [];
    var toAdjust := now[1..];
    var j := 0;
    while j < |toAdjust| && j < |wins|
      invariant 0 <= j <= |wins| && j <= |toAdjust|
      invariant |effects| == j
      invariant forall i :: 0 <= i < j ==> effects[i] == MarginChange(wins[i], n[now[i + 1]].upper)
    {
      effects := effects + [MarginChange(wins[j], n[toAdjust[j]].upper)];
      j := j + 1;
    }
  }

  /** `for id in map.keys() { close(id) }`: one close request per window,
      in the map's (arbitrary) iteration order, returned as `order`. */
  method CloseEach(ws: set<nat>) returns (effects: seq<Effect>, ghost order: seq<nat>)
    ensures Ordering.Enumerates(order, ws)
    ensures effects == CloseAll(order)
  {
    effects, order := [], [];
    var left := ws;
    while left != {}
      invariant left <= ws
      invariant forall k :: k in ws <==> k in left || k in order
      invariant forall i :: 0 <= i < |order| ==> order[i] !in left
      invariant forall i, j :: 0 <= i < j < |order| ==> order[i] != order[j]
      invariant effects == CloseAll(order)
      decreases |left|
    {
      var w :| w in left;
      CloseAllAppend(order, w);
      effects := effects + [CloseWindow(w)];
      order := order + [w];
      left := left - {w};
    }
  }

  /** `for (id, nid) in showned { if let Some(info) = notifications.get(nid)
      { cached.insert(id, info) } }` over the windows `ws`, in the map's
      (arbitrary) iteration order `order`. */
  method CacheEach(cached: map<nat, Info>, n: Records, showned: map<nat, nat>, ws: set<nat>)
    returns (cached2: map<nat, Info>, ghost order: seq<nat>)
    requires ws <= showned.Keys
    ensures Ordering.Enumerates(order, ws)
    ensures forall w :: w in order ==> w in showned
    ensures cached2 == Cached(cached, n, showned, order)
  {
    cached2, order := cached, [];
    var left := ws;
    while left != {}
      invariant left <= ws
      invariant forall k :: k in ws <==> k in left || k in order
      invariant forall i :: 0 <= i < |order| ==> order[i] !in left
      invariant forall i, j :: 0 <= i < j < |order| ==> order[i] != order[j]
      invariant forall w :: w in order ==> w in showned
      invariant cached2 == Cached(cached, n, showned, order)
      decreases |left|
    {
      var w :| w in left;
      CachedAppend(cached, n, showned, order, w);
      if showned[w] in n {
        cached2 := cached2[w := n[showned[w]]];
      }
      order := order + [w];
      left := left - {w};
    }
  }

  /** The `iter_mut` loop of `UnitAdd` that moves every record down one slot. */
  method BumpAll(n: Records) returns (m: Records)
    ensures m == Bumped(n)
  {
    m := n;
    var left := n.Keys;
    while left != {}
      invariant left <= n.Keys && m.Keys == n.Keys
      invariant forall id :: id in n ==> m[id] == if id in left then n[id] else Bump(n[id])
      decreases |left|
    {
      var id :| id in left;
      m := m[id := Bump(m[id])];
      left := left - {id};
    }
  }

  /** The `iter_mut` loop of `remove_notify` that moves the records below
      the removed one up one slot. */
  method ShiftAll(n: Records, k: nat) returns (m: Records)
    ensures m == ShiftedAbove(n, k)
  {
    m := n;
    var left := n.Keys;
    while left != {}
      invariant left <= n.Keys && m.Keys == n.Keys
      invariant forall id :: id in n ==> m[id] == if id in left || n[id].counter <= k then n[id] else Lift(n[id])
      decreases |left|
    {
      var id :| id in left;
      if m[id].counter > k {
        m := m[id := Lift(m[id])];
      }
      left := left - {id};
    }
  }

  /** `update_hidden_notification`'s computation: the hidden records,
      filtered out of the map and sorted by position. */
  method HiddenList(n: Records, quite: bool) returns (hidden: seq<Info>)
    requires KeyedById(n)
    ensures ListsHidden(hidden, n, quite)
  {
    var ids := HiddenIds(n, quite);
    var rank := map id | id in ids :: n[id].counter as int;
    var ks := Ordering.SortByRank(rank, false);
    hidden := seq(|ks|, i requires 0 <= i < |ks| => n[ks[i]]);
    forall i, j | 0 <= i < j < |hidden|
      ensures hidden[i].counter <= hidden[j].counter
    {
      assert Ordering.Precedes(rank, ks[i], ks[j], false);
    }
    forall id | id in ids
      ensures exists i :: 0 <= i < |hidden| && hidden[i].unit.id == id
    {
      assert id in ks;
      var i :| 0 <= i < |ks| && ks[i] == id;
      assert hidden[i].unit.id == id;
    }
  }

  /** The hidden queue holds exactly as many entries as there are hidden records. */
  lemma {:induction false} HiddenCount(hidden: seq<Info>, n: Records, quite: bool)
    requires ListsHidden(hidden, n, quite)
    ensures |hidden| == |HiddenIds(n, quite)|
  {
    var ids := seq(|hidden|, i requires 0 <= i < |hidden| => hidden[i].unit.id);
    forall id
      ensures id in HiddenIds(n, quite) <==> id in ids
    {
      if id in HiddenIds(n, quite) {
        var i :| 0 <= i < |hidden| && hidden[i].unit.id == id;
        assert ids[i] == id;
      }
    }
    Ordering.EnumerationSize(ids, HiddenIds(n, quite));
  }

  /** Windows ranked by the id bound to them. */
  function BoundIds(showned: map<nat, nat>): (rank: map<nat, int>)
    ensures rank.Keys == showned.Keys && forall w :: w in showned ==> rank[w] == showned[w]
  {
    map w | w in showned :: showned[w] as int
  }

  /** Ids of the records in the four shown slots, marked or not. */
  function SlotIds(n: Records): (s: set<nat>)
    ensures forall id :: id in s <==> id in n && n[id].counter < Config.MaxShownNotificationsCount
  {
    set id | id in n && n[id].counter < Config.MaxShownNotificationsCount
  }

  /** The close request for the indicator window, if there is one. */
  function CloseHidden(hiddenId: Option<nat>): (e: seq<Effect>)
    ensures hiddenId.None? <==> e == []
    ensures hiddenId.Some? ==> e == [CloseWindow(hiddenId.value)]
  {
    if hiddenId.Some? then [CloseWindow(hiddenId.value)] else []
  }

  /** A singleton window slot after `window` closed: emptied if it held `window`. */
  function Cleared(slot: Option<nat>, window: nat): (r: Option<nat>)
    ensures r != Some(window)
    ensures slot != Some(window) ==> r == slot
  {
    if slot == Some(window) then None else slot
  }

  lemma BindingsAppend(n: Records, order: seq<nat>, k: nat, first: nat)
    requires (forall i :: 0 <= i < |order| ==> order[i] in n) && k in n
    ensures Bindings(n, order + [k], first) == Bindings(n, order, first)[first + |order| := n[k].unit.id]
  {
    var a, b := Bindings(n, order + [k], first), Bindings(n, order, first)[first + |order| := n[k].unit.id];
    assert forall i :: 0 <= i < |order| ==> (order + [k])[i] == order[i];
    forall w | w in a
      ensures w in b && a[w] == b[w]
    {
      assert (order + [k])[w - first] == if w - first < |order| then order[w - first] else k;
    }
    forall w | w in b
      ensures w in a
    {
      if w != first + |order| {
        assert first <= w < first + |order|;
        assert (order + [k])[w - first] == order[w - first];
      } else {
        assert (order + [k])[|order|] == k;
      }
    }
  }

  lemma OpensAppend(n: Records, order: seq<nat>, k: nat, first: nat)
    requires (forall i :: 0 <= i < |order| ==> order[i] in n) && k in n
    ensures Opens(n, order + [k], first) == Opens(n, order, first) + [OpenNotification(first + |order|, n[k].upper)]
  {
    assert forall i :: 0 <= i < |order| ==> (order + [k])[i] == order[i];
  }

  /** The `QuiteMode(false)` loop: every record of `ids`, in the map's
      (arbitrary) order `order`, gets a fresh window numbered from `first`
      and an open request at its own offset. */
  method OpenEach(n: Records, ids: set<nat>, first: nat)
    returns (binds: map<nat, nat>, effects: seq<Effect>, order: seq<nat>)
    requires ids <= n.Keys
    ensures Ordering.Enumerates(order, ids)
    ensures forall i :: 0 <= i < |order| ==> order[i] in n
    ensures binds == Bindings(n, order, first)
    ensures effects == Opens(n, order, first)
  {
    binds, effects, order := map[], [], [];
    var left := ids;
    while left != {}
      invariant left <= ids
      invariant forall k :: k in ids <==> k in left || k in order
      invariant forall i :: 0 <= i < |order| ==> order[i] in n && order[i] !in left
      invariant forall i, j :: 0 <= i < j < |order| ==> order[i] != order[j]
      invariant binds == Bindings(n, order, first)
      invariant effects == Opens(n, order, first)
      decreases |left|
    {
      var id :| id in left;
      BindingsAppend(n, order, id, first);
      OpensAppend(n, order, id, first);
      binds := binds[first + |order| := n[id].unit.id];
      effects := effects + [OpenNotification(first + |order|, n[id].upper)];
      order := order + [id];
      left := left - {id};
    }
  }

  /** Windows listed by bound id, highest first. */
  ghost predicate ByBoundIdDescending(wins: seq<nat>, showned: map<nat, nat>) {
    Ordering.Enumerates(wins, showned.Keys) &&
    (forall i :: 0 <= i < |wins| ==> wins[i] in showned) &&
    (forall i, j :: 0 <= i < j < |wins| ==> showned[wins[j]] <= showned[wins[i]])
  }

  /** Ids listed highest first, each once. */
  ghost predicate Descending(ids: seq<nat>, s: set<nat>) {
    Ordering.Enumerates(ids, s) && forall i, j :: 0 <= i < j < |ids| ==> ids[j] < ids[i]
  }

  /** The windows sorted as `remove_notify` and `UnitAdd` sort them. */
  method SortWindows(showned: map<nat, nat>) returns (wins: seq<nat>)
    ensures ByBoundIdDescending(wins, showned)
  {
    wins := Ordering.SortByRank(BoundIds(showned), true);
    forall i, j | 0 <= i < j < |wins|
      ensures showned[wins[j]] <= showned[wins[i]]
    {
      assert Ordering.Precedes(BoundIds(showned), wins[i], wins[j], true);
    }
  }

  /** The ids of `s` sorted highest first. */
  method SortIds(s: set<nat>) returns (ids: seq<nat>)
    ensures Descending(ids, s)
  {
    ids := Ordering.SortByRank(Ordering.ByValue(s), true);
    Ordering.SortedByValueIsStrict(ids, s);
  }

  /** What `remove_notify` of a present `id` leaves behind:
      the records (`AfterRemove`), the windows `wins` (by bound id) paired
      with the live ids `live` (descending), the surplus windows cached and
      re-bound to `id`, and the requests: the surplus windows closed, the
      indicator closed once at most four live records remain, and an output
      check once none remain. */
  ghost predicate LiveRemoval(n: Records, showned: map<nat, nat>, cached: map<nat, Info>,
                              hiddenId: Option<nat>, quite: bool, id: nat,
                              n2: Records, showned2: map<nat, nat>, cached2: map<nat, Info>,
                              effects: seq<Effect>, wins: seq<nat>, live: seq<nat>)
    requires id in n
  {
    var t := Tombstoned(n, id);
    n2 == AfterRemove(n, id, |showned|, quite) &&
    ByBoundIdDescending(wins, showned) && Descending(live, LiveIds(t)) &&
    |wins| == |showned| && |live| == |LiveIds(t)| &&
    PairedUpTo(showned2, showned, wins, live, id, |wins|) &&
    cached2 == Cached(cached, t, showned, Surplus(wins, |live|)) &&
    effects == CloseAll(Surplus(wins, |live|)) +
      (if |LiveIds(n2)| <= Config.MaxShownNotificationsCount then CloseHidden(hiddenId) else []) +
      (if |LiveIds(n2)| == 0 then [CheckOutput] else [])
  }

  /** The body of `remove_notify` for a present id, on the values of the
      fields it changes. */
  method RemoveStep(n: Records, showned: map<nat, nat>, cached: map<nat, Info>,
                    hiddenId: Option<nat>, quite: bool, id: nat)
    returns (n2: Records, showned2: map<nat, nat>, cached2: map<nat, Info>,
             effects: seq<Effect>, ghost wins: seq<nat>, ghost live: seq<nat>)
    requires id in n
    ensures LiveRemoval(n, showned, cached, hiddenId, quite, id, n2, showned2, cached2, effects, wins, live)
  {
    var k := n[id].counter;
    var t := ShiftAll(n[id := n[id].(toDelete := true)], k);
    assert t == Tombstoned(n, id);
    var ws := SortWindows(showned);
    var lv := SortIds(LiveIds(t));
    Ordering.EnumerationSize(ws, showned.Keys);
    Ordering.EnumerationSize(lv, LiveIds(t));
    var closes;
    showned2, cached2, closes := PairWindows(t, showned, cached, ws, lv, id);
    assert |closes| == |Surplus(ws, |lv|)|;
    assert closes != [] <==> |showned| > |LiveIds(t)|;
    n2, effects := Settle(t, closes != [], quite || k >= Config.MaxShownNotificationsCount, id, closes, hiddenId);
    wins, live := ws, lv;
  }

  /** The end of `remove_notify`: purge the marked records unless a window
      was closed (`hasRemoved`), drop the removed record when asked, and
      add the indicator close and the output check to `closes`. */
  method Settle(t: Records, hasRemoved: bool, drop: bool, id: nat, closes: seq<Effect>, hiddenId: Option<nat>)
    returns (n2: Records, effects: seq<Effect>)
    ensures var kept := if hasRemoved then t else Purged(t); n2 == if drop then kept - {id} else kept
    ensures effects == closes +
      (if |LiveIds(n2)| <= Config.MaxShownNotificationsCount then CloseHidden(hiddenId) else []) +
      (if |LiveIds(n2)| == 0 then [CheckOutput] else [])
  {
    n2 := t;
    if !hasRemoved {
      n2 := Purged(n2);
    }
    if drop {
      n2 := n2 - {id};
    }
    var count := |LiveIds(n2)|;
    effects := closes;
    if count <= Config.MaxShownNotificationsCount && hiddenId.Some? {
      effects := effects + [CloseWindow(hiddenId.value)];
    } else {
      assert effects == closes + [];
    }
    ghost var closing := effects;
    if count == 0 {
      effects := effects + [CheckOutput];
    } else {
      assert effects == closing + [];
    }
  }

  /** `remove_notify` with the guard corrected (see `StackSpec.RemoveOnce`):
      an absent or already marked id changes nothing; a live one goes
      through `RemoveStep` and the recount of the hidden queue. Removal
      keeps the offsets, the filing and the contiguous live positions, the
      windows stay bound, and exactly `id` leaves the live records. */
  method Removal(n: Records, showned: map<nat, nat>, cached: map<nat, Info>, hidden: seq<Info>,
                 hiddenId: Option<nat>, quite: bool, id: nat)
    returns (n2: Records, showned2: map<nat, nat>, cached2: map<nat, Info>, hidden2: seq<Info>,
             effects: seq<Effect>, ghost wins: seq<nat>, ghost live: seq<nat>)
    requires OffsetLaw(n) && KeyedById(n)
    ensures id !in LiveIds(n) ==> n2 == n && showned2 == showned && cached2 == cached && hidden2 == hidden && effects == []
    ensures id in LiveIds(n) ==>
      n2 == RemoveOnce(n, id, |showned|, quite) &&
      LiveRemoval(n, showned, cached, hiddenId, quite, id, n2, showned2, cached2, effects, wins, live) &&
      ListsHidden(hidden2, n2, quite)
    ensures OffsetLaw(n2) && KeyedById(n2) && showned2.Keys == showned.Keys
    ensures LiveIds(n2) == LiveIds(n) - {id}
    ensures Contiguous(n) ==> Contiguous(n2)
  {
    if id !in LiveIds(n) {
      n2, showned2, cached2, hidden2, effects, wins, live := n, showned, cached, hidden, [], [], [];
      return;
    }
    AfterRemoveKeepsInvariants(n, id, |showned|, quite);
    n2, showned2, cached2, effects, wins, live := RemoveStep(n, showned, cached, hiddenId, quite, id);
    hidden2 := HiddenList(n2, quite);
  }

  /** What `UnitAdd` of a new id does, as written: the records
      (`Added`), the hidden queue recomputed, and the windows. Outside quiet
      mode, with four windows bound, the windows (by bound id) are re-bound
      to the shown-slot ids `now` (descending) and nothing opens; with
      another number, the windows move to the offsets of the shown slots
      after the first and a new window `next` opens for the new id at the
      top margin. The indicator opens when the hidden queue is non-empty,
      quiet mode is off and there is no indicator yet. A timer to remove the
      notification is started unless its timeout is -1. */
  ghost predicate NewAddition(n: Records, showned: map<nat, nat>, hiddenId: Option<nat>, next: nat,
                              quite: bool, unit: NotifyUnit,
                              n2: Records, showned2: map<nat, nat>, hidden2: seq<Info>,
                              hiddenId2: Option<nat>, next2: nat, effects: seq<Effect>,
                              now: seq<nat>, wins: seq<nat>)
  {
    var opens := !quite && |showned| != Config.MaxShownNotificationsCount;
    var w := if opens then next + 1 else next;
    var indicator := hidden2 != [] && !quite && hiddenId.None?;
    n2 == Added(n, unit) && ListsHidden(hidden2, n2, quite) &&
    hiddenId2 == (if indicator then Some(w) else hiddenId) &&
    next2 == (if indicator then w + 1 else w) &&
    (quite ==> showned2 == showned && now == [] && wins == []) &&
    (!quite ==> Descending(now, ShownSlots(n2)) && ByBoundIdDescending(wins, showned)) &&
    (!quite && !opens ==>
       showned2.Keys == showned.Keys &&
       forall j :: 0 <= j < |wins| ==> showned2[wins[j]] == if j < |now| then now[j] else showned[wins[j]]) &&
    (opens ==> showned2 == showned[next := unit.id]) &&
    effects == Schedule(unit) +
      (if opens then MarginEffects(n2, now, wins) + [OpenNotification(next, Config.BeginningUpMargin)] else []) +
      (if indicator then [OpenIndicator(w, Config.ExtraInfMargin)] else [])
  }

  /** The window part of `UnitAdd` outside quiet mode, once the new record
      `unit.id` is on top of `n`. */
  method PlaceNew(n: Records, showned: map<nat, nat>, next: nat, unit: NotifyUnit)
    returns (showned2: map<nat, nat>, next2: nat, effects: seq<Effect>, ghost now: seq<nat>, ghost wins: seq<nat>)
    requires unit.id in ShownSlots(n)
    ensures Descending(now, ShownSlots(n)) && ByBoundIdDescending(wins, showned)
    ensures |showned| == Config.MaxShownNotificationsCount ==>
      next2 == next && effects == [] && showned2.Keys == showned.Keys &&
      forall j :: 0 <= j < |wins| ==> showned2[wins[j]] == if j < |now| then now[j] else showned[wins[j]]
    ensures |showned| != Config.MaxShownNotificationsCount ==>
      next2 == next + 1 && showned2 == showned[next := unit.id] &&
      effects == MarginEffects(n, now, wins) + [OpenNotification(next, Config.BeginningUpMargin)]
  {
    var allShown := |showned| == Config.MaxShownNotificationsCount;
    var nw := SortIds(ShownSlots(n));
    var ws := SortWindows(showned);
    if allShown {
      showned2 := RebindShown(showned, ws, nw);
      next2, effects := next, [];
    } else {
      assert unit.id in nw;
      var margins := MarginChanges(n, nw, ws);
      effects := margins + [OpenNotification(next, Config.BeginningUpMargin)];
      showned2 := showned[next := unit.id];
      next2 := next + 1;
    }
    now, wins := nw, ws;
  }

  /** `UnitAdd` of an id not yet stored, on the values of the fields it changes. */
  method AddStep(n: Records, showned: map<nat, nat>, hiddenId: Option<nat>, next: nat, quite: bool, unit: NotifyUnit)
    returns (n2: Records, showned2: map<nat, nat>, hidden2: seq<Info>, hiddenId2: Option<nat>, next2: nat,
             effects: seq<Effect>, ghost now: seq<nat>, ghost wins: seq<nat>)
    requires unit.id !in n && KeyedById(n)
    ensures NewAddition(n, showned, hiddenId, next, quite, unit, n2, showned2, hidden2, hiddenId2, next2, effects, now, wins)
  {
    n2 := BumpAll(n);
    n2 := n2[unit.id := Fresh(unit)];
    assert n2 == Added(n, unit);
    AddedFiled(n, unit);
    hidden2 := HiddenList(n2, quite);
    var placed: seq<Effect>;
    if quite {
      showned2, next2, placed, now, wins := showned, next, [], [], [];
    } else {
      showned2, next2, placed, now, wins := PlaceNew(n2, showned, next, unit);
      assert next2 == if |showned| != Config.MaxShownNotificationsCount then next + 1 else next;
    }
    var indicator := hidden2 != [] && !quite && hiddenId.None?;
    hiddenId2 := if indicator then Some(next2) else hiddenId;
    effects := Schedule(unit) + placed + (if indicator then [OpenIndicator(next2, Config.ExtraInfMargin)] else []);
    next2 := if indicator then next2 + 1 else next2;
  }

  /** `UnitAdd` never opens a fifth notification window: with at most four
      bound before, at most four are bound after. */
  lemma AddKeepsAtMostFour(n: Records, showned: map<nat, nat>, hiddenId: Option<nat>, next: nat,
                           quite: bool, unit: NotifyUnit,
                           n2: Records, showned2: map<nat, nat>, hidden2: seq<Info>,
                           hiddenId2: Option<nat>, next2: nat, effects: seq<Effect>,
                           now: seq<nat>, wins: seq<nat>)
    requires NewAddition(n, showned, hiddenId, next, quite, unit, n2, showned2, hidden2, hiddenId2, next2, effects, now, wins)
    requires next !in showned && |showned| <= Config.MaxShownNotificationsCount
    ensures |showned2| <= Config.MaxShownNotificationsCount
  {
    if !quite && |showned| == Config.MaxShownNotificationsCount {
      assert showned2.Keys == showned.Keys;
      assert |showned2| == |showned2.Keys| == |showned.Keys|;
    }
  }

  /** The windows bound and the indicator all lie below the next window number. */
  ghost predicate WindowsBelow(showned: map<nat, nat>, hiddenId: Option<nat>, next: nat) {
    (forall w :: w in showned ==> w < next) && (hiddenId.Some? ==> hiddenId.value < next)
  }

  /** `UnitAdd` only opens windows at or above the next window number and
      moves that number past them, so no window number is ever reused. */
  lemma AddKeepsWindowsBelow(n: Records, showned: map<nat, nat>, hiddenId: Option<nat>, next: nat,
                             quite: bool, unit: NotifyUnit,
                             n2: Records, showned2: map<nat, nat>, hidden2: seq<Info>,
                             hiddenId2: Option<nat>, next2: nat, effects: seq<Effect>,
                             now: seq<nat>, wins: seq<nat>)
    requires NewAddition(n, showned, hiddenId, next, quite, unit, n2, showned2, hidden2, hiddenId2, next2, effects, now, wins)
    requires WindowsBelow(showned, hiddenId, next)
    ensures WindowsBelow(showned2, hiddenId2, next2)
  {
    var opens := !quite && |showned| != Config.MaxShownNotificationsCount;
    assert next <= next2;
    if opens {
      assert showned2 == showned[next := unit.id];
    } else {
      assert showned2.Keys == showned.Keys;
    }
  }

  /** The whole `UnitAdd` arm on the values of the fields it changes: a
      known id only has its unit replaced; a new one is added as
      `NewAddition` says. Either way the records stay consistent, no
      window number is reused, at most four windows stay bound and the
      live positions stay contiguous. */
  method Addition(n: Records, showned: map<nat, nat>, hidden: seq<Info>, hiddenId: Option<nat>, next: nat,
                  quite: bool, unit: NotifyUnit)
    returns (n2: Records, showned2: map<nat, nat>, hidden2: seq<Info>, hiddenId2: Option<nat>, next2: nat,
             effects: seq<Effect>, ghost now: seq<nat>, ghost wins: seq<nat>)
    requires OffsetLaw(n) && KeyedById(n) && WindowsBelow(showned, hiddenId, next)
    ensures unit.id in n ==>
      n2 == n[unit.id := n[unit.id].(unit := unit)] && effects == [] && showned2 == showned && hidden2 == hidden && hiddenId2 == hiddenId && next2 == next
    ensures unit.id !in n ==>
      NewAddition(n, showned, hiddenId, next, quite, unit, n2, showned2, hidden2, hiddenId2, next2, effects, now, wins)
    ensures OffsetLaw(n2) && KeyedById(n2) && WindowsBelow(showned2, hiddenId2, next2)
    ensures |showned| <= Config.MaxShownNotificationsCount ==> |showned2| <= Config.MaxShownNotificationsCount
    ensures Contiguous(n) ==> Contiguous(n2)
  {
    AddedKeepsInvariants(n, unit);
    if unit.id in n {
      n2, showned2, hidden2, hiddenId2, next2, effects, now, wins := n[unit.id := n[unit.id].(unit := unit)], showned, hidden, hiddenId, next, [], [], [];
      return;
    }
    n2, showned2, hidden2, hiddenId2, next2, effects, now, wins := AddStep(n, showned, hiddenId, next, quite, unit);
    if |showned| <= Config.MaxShownNotificationsCount {
      AddKeepsAtMostFour(n, showned, hiddenId, next, quite, unit, n2, showned2, hidden2, hiddenId2, next2, effects, now, wins);
    }
    AddKeepsWindowsBelow(n, showned, hiddenId, next, quite, unit, n2, showned2, hidden2, hiddenId2, next2, effects, now, wins);
  }

  /** Windows opened from `next` on, and possibly the indicator after them,
      leave every number in use below the new next window number. */
  lemma OpenedBelow(showned: map<nat, nat>, hiddenId: Option<nat>, next: nat, n: Records, order: seq<nat>, indicator: bool)
    requires WindowsBelow(showned, hiddenId, next)
    requires forall i :: 0 <= i < |order| ==> order[i] in n
    ensures
      var w := next + |order|;
      WindowsBelow(showned + Bindings(n, order, next), if indicator then Some(w) else hiddenId, if indicator then w + 1 else w)
  {
    var b := Bindings(n, order, next);
    assert forall k :: k in showned + b ==> k in showned || k in b;
  }

  /** Leaving quiet mode: a fresh window for every record in the four shown
      slots, in the map's order `order`, numbered from `next`, and the
      indicator when more than four records exist and none is open. */
  method Reopen(n: Records, showned: map<nat, nat>, hiddenId: Option<nat>, next: nat)
    returns (showned2: map<nat, nat>, hiddenId2: Option<nat>, next2: nat, effects: seq<Effect>, order: seq<nat>)
    requires WindowsBelow(showned, hiddenId, next)
    ensures WindowsBelow(showned2, hiddenId2, next2)
    ensures Ordering.Enumerates(order, SlotIds(n)) && (forall i :: 0 <= i < |order| ==> order[i] in n)
    ensures showned2 == showned + Bindings(n, order, next)
    ensures
      var indicator := |n| > Config.MaxShownNotificationsCount && hiddenId.None?;
      var w := next + |order|;
      effects == Opens(n, order, next) + (if indicator then [OpenIndicator(w, Config.ExtraInfMargin)] else []) &&
      hiddenId2 == (if indicator then Some(w) else hiddenId) &&
      next2 == (if indicator then w + 1 else w)
  {
    var binds, opens;
    binds, opens, order := OpenEach(n, SlotIds(n), next);
    showned2 := showned + binds;
    var indicator := |n| > Config.MaxShownNotificationsCount && hiddenId.None?;
    var w := next + |order|;
    OpenedBelow(showned, hiddenId, next, n, order, indicator);
    effects := opens + if indicator then [OpenIndicator(w, Config.ExtraInfMargin)] else [];
    hiddenId2 := if indicator then Some(w) else hiddenId;
    next2 := if indicator then w + 1 else w;
  }

  /** The whole `QuiteMode` arm on the values of the fields it changes.
      Turning quiet mode on closes every bound window, in the map's order
      `order`, and the indicator. Turning it off opens a fresh window for
      every record in the four shown slots (marked or not), in the map's
      order `order`, at the record's offset, and the indicator when more
      than four records exist and none is open. The hidden queue is
      recomputed either way. */
  method Quieting(n: Records, showned: map<nat, nat>, hiddenId: Option<nat>, next: nat, quite: bool)
    returns (showned2: map<nat, nat>, hidden2: seq<Info>, hiddenId2: Option<nat>, next2: nat,
             effects: seq<Effect>, ghost order: seq<nat>)
    requires KeyedById(n) && WindowsBelow(showned, hiddenId, next)
    ensures ListsHidden(hidden2, n, quite) && WindowsBelow(showned2, hiddenId2, next2)
    ensures quite ==>
      showned2 == showned && hiddenId2 == hiddenId && next2 == next &&
      Ordering.Enumerates(order, showned.Keys) && effects == CloseAll(order) + CloseHidden(hiddenId)
    ensures !quite ==>
      Ordering.Enumerates(order, SlotIds(n)) && (forall i :: 0 <= i < |order| ==> order[i] in n) &&
      showned2 == showned + Bindings(n, order, next)
    ensures !quite ==>
      var indicator := |n| > Config.MaxShownNotificationsCount && hiddenId.None?;
      var w := next + |order|;
      effects == Opens(n, order, next) + (if indicator then [OpenIndicator(w, Config.ExtraInfMargin)] else []) &&
      hiddenId2 == (if indicator then Some(w) else hiddenId) &&
      next2 == (if indicator then w + 1 else w)
  {
    if quite {
      showned2, hiddenId2, next2 := showned, hiddenId, next;
      effects, order := CloseEach(showned.Keys);
      effects := effects + CloseHidden(hiddenId);
    } else {
      showned2, hiddenId2, next2, effects, order := Reopen(n, showned, hiddenId, next);
    }
    hidden2 := HiddenList(n, quite);
  }

  /** The `ClearAllNotifications` arm on the values of the fields it
      changes: the close requests for the bound windows (in the map's order
      `order`) and the indicator, then an output check; the bound records
      cached under their windows (in the map's order `cacheOrder`); and the
      hidden queue of an empty store, which is empty. */
  method Clearing(n: Records, showned: map<nat, nat>, cached: map<nat, Info>, hiddenId: Option<nat>, quite: bool)
    returns (cached2: map<nat, Info>, hidden2: seq<Info>, effects: seq<Effect>, ghost order: seq<nat>, ghost cacheOrder: seq<nat>)
    ensures Ordering.Enumerates(order, showned.Keys) && Ordering.Enumerates(cacheOrder, showned.Keys)
    ensures effects == CloseAll(order) + CloseHidden(hiddenId) + [CheckOutput]
    ensures cached2 == Cached(cached, n, showned, cacheOrder)
    ensures hidden2 == []
  {
    effects, order := CloseEach(showned.Keys);
    effects := effects + CloseHidden(hiddenId) + [CheckOutput];
    cached2, cacheOrder := CacheEach(cached, n, showned, showned.Keys);
    hidden2 := HiddenList(map[], quite);
    HiddenCount(hidden2, map[], quite);
  }

  /** `LalaMusicBar`'s notification state. Window ids are numbers handed
      out from `nextWindow` on (`Id::unique`); `relay` and `checkReplies`
      are the senders installed by `Ready` and `ReadyCheck`. */
  class MusicBar {
    var notifications: Records
    var showned: map<nat, nat>
    var cached: map<nat, Info>
    var hidden: seq<Info>
    var quiteMode: bool
    var launcherId: Option<nat>
    var launcherOpen: bool
    var hiddenId: Option<nat>
    var rightPanel: Option<nat>
    var calendarId: Option<nat>
    var timePickerId: Option<nat>
    var nextWindow: nat
    var relay: Option<Queue<NotifyCommand>>
    var checkReplies: Option<Queue<bool>>
    /** The action key a click reports (`DEFAULT_ACTION`). */
    const defaultAction: string

    /** Every record sits at its offset and under its own id, the live
        records hold the positions from 0 up without a gap, and every
        notification window was handed out already. */
    ghost predicate Valid()
      reads this
    {
      OffsetLaw(notifications) && KeyedById(notifications) && Contiguous(notifications) &&
      WindowsBelow(showned, hiddenId, nextWindow)
    }

    /** The window slots and the reply sender are as they were. */
    twostate predicate SlotsKept()
      reads this
    {
      launcherId == old(launcherId) && launcherOpen == old(launcherOpen) && rightPanel == old(rightPanel) &&
      calendarId == old(calendarId) && timePickerId == old(timePickerId) && checkReplies == old(checkReplies)
    }

    /** The window slots and senders, which the notification arms only read, are as they were. */
    twostate predicate OthersKept()
      reads this
    {
      SlotsKept() && relay == old(relay)
    }

    /** `LalaMusicBar::new`: nothing stored, quiet mode off, no senders yet. */
    constructor (defaultAction: string)
      ensures Valid() && this.defaultAction == defaultAction
      ensures notifications == map[] && showned == map[] && cached == map[] && hidden == []
      ensures !quiteMode && hiddenId == None && nextWindow == 0
      ensures launcherId == None && !launcherOpen && rightPanel == None && calendarId == None && timePickerId == None
      ensures relay == None && checkReplies == None
    {
      this.defaultAction := defaultAction;
      notifications, showned, cached, hidden := map[], map[], map[], [];
      quiteMode := false;
      launcherId, launcherOpen, hiddenId, rightPanel, calendarId, timePickerId := None, false, None, None, None, None;
      nextWindow := 0;
      relay, checkReplies := None, None;
    }

    /** `update_hidden_notification`. */
    method UpdateHiddenNotification()
      requires Valid()
      modifies this
      ensures Valid() && ListsHidden(hidden, notifications, quiteMode)
      ensures notifications == old(notifications) && showned == old(showned) && cached == old(cached)
      ensures quiteMode == old(quiteMode) && hiddenId == old(hiddenId) && nextWindow == old(nextWindow)
      ensures OthersKept()
    {
      hidden := HiddenList(notifications, quiteMode);
    }

    /** `id_info`: the role of `window`, checking the singleton windows first,
        then the cached records, then the bound ones; a bound window whose
        record is gone reports an error. */
    /** One of the singleton windows (launcher, indicator, time picker,
        right panel, calendar) is `window`. */
    predicate SlotHolds(window: nat)
      reads this
    {
      launcherId == Some(window) || hiddenId == Some(window) || timePickerId == Some(window) ||
      rightPanel == Some(window) || calendarId == Some(window)
    }

    function IdInfo(window: nat): (r: Option<Bar.LaLaInfo>)
      reads this
      ensures launcherId == Some(window) ==> r == Some(Bar.Launcher)
      ensures launcherId != Some(window) && hiddenId == Some(window) ==> r == Some(Bar.HiddenInfo)
      ensures launcherId != Some(window) && hiddenId != Some(window) && timePickerId == Some(window) ==>
        r == Some(Bar.TimePicker)
      ensures (launcherId != Some(window) && hiddenId != Some(window) && timePickerId != Some(window) &&
               rightPanel == Some(window)) ==>
        r == Some(Bar.RightPanel)
      ensures (launcherId != Some(window) && hiddenId != Some(window) && timePickerId != Some(window) &&
               rightPanel != Some(window) && calendarId == Some(window)) ==>
        r == Some(Bar.Calendar)
      ensures !SlotHolds(window) && window in cached ==> r == Some(Bar.Notify(cached[window]))
      ensures !SlotHolds(window) && window !in cached && window in showned && showned[window] in notifications ==>
        r == Some(Bar.Notify(notifications[showned[window]]))
      ensures r.None? <==>
        launcherId != Some(window) && hiddenId != Some(window) && timePickerId != Some(window) &&
        rightPanel != Some(window) && calendarId != Some(window) && window !in cached && window !in showned
      ensures r.Some? && r.value.ErrorHappened? <==>
        launcherId != Some(window) && hiddenId != Some(window) && timePickerId != Some(window) &&
        rightPanel != Some(window) && calendarId != Some(window) && window !in cached &&
        window in showned && showned[window] !in notifications
      ensures r.Some? && r.value.ErrorHappened? ==> r.value.window == window
      ensures r.Some? && r.value.Notify? ==>
        (window in cached && r.value.info == cached[window]) ||
        (window in showned && showned[window] in notifications && r.value.info == notifications[showned[window]])
    {
      if launcherId == Some(window) then Some(Bar.Launcher)
      else if hiddenId == Some(window) then Some(Bar.HiddenInfo)
      else if timePickerId == Some(window) then Some(Bar.TimePicker)
      else if rightPanel == Some(window) then Some(Bar.RightPanel)
      else if calendarId == Some(window) then Some(Bar.Calendar)
      else if window in cached then Some(Bar.Notify(cached[window]))
      else if window !in showned then None
      else if showned[window] in notifications then Some(Bar.Notify(notifications[showned[window]]))
      else Some(Bar.ErrorHappened(window))
    }

    /** `set_id_info`: records what `window` shows; an error tag is
        `unreachable!()`. On a window nothing claims yet, `IdInfo` then
        answers with what was set. */
    method SetIdInfo(window: nat, info: Bar.LaLaInfo) returns (out: Outcome)
      modifies this
      ensures info.ErrorHappened? <==> out == Panicked
      ensures notifications == old(notifications) && cached == old(cached) && hidden == old(hidden)
      ensures quiteMode == old(quiteMode) && nextWindow == old(nextWindow) && launcherOpen == old(launcherOpen)
      ensures relay == old(relay) && checkReplies == old(checkReplies)
      ensures launcherId == if info.Launcher? then Some(window) else old(launcherId)
      ensures hiddenId == if info.HiddenInfo? then Some(window) else old(hiddenId)
      ensures rightPanel == if info.RightPanel? then Some(window) else old(rightPanel)
      ensures calendarId == if info.Calendar? then Some(window) else old(calendarId)
      ensures timePickerId == if info.TimePicker? then Some(window) else old(timePickerId)
      ensures showned == if info.Notify? then old(showned)[window := info.info.unit.id] else old(showned)
      ensures old(IdInfo(window)) == None && !info.Notify? && !info.ErrorHappened? ==> IdInfo(window) == Some(info)
      ensures old(IdInfo(window)) == None && info.Notify? ==>
        IdInfo(window) == if info.info.unit.id in notifications then Some(Bar.Notify(notifications[info.info.unit.id]))
                          else Some(Bar.ErrorHappened(window))
    {
      out := Done([]);
      match info {
        case Launcher => launcherId := Some(window);
        case Notify(r) => showned := showned[window := r.unit.id];
        case HiddenInfo => hiddenId := Some(window);
        case RightPanel => rightPanel := Some(window);
        case Calendar => calendarId := Some(window);
        case TimePicker => timePickerId := Some(window);
        case ErrorHappened(_) => out := Panicked;
      }
    }

    /** The first half of `remove_id`: every singleton slot holding
        `window` is emptied, and the launcher goes with its window. */
    method ClearSlots(window: nat)
      modifies this
      ensures launcherId == Cleared(old(launcherId), window) && hiddenId == Cleared(old(hiddenId), window)
      ensures rightPanel == Cleared(old(rightPanel), window) && calendarId == Cleared(old(calendarId), window)
      ensures timePickerId == Cleared(old(timePickerId), window)
      ensures launcherOpen == (old(launcherOpen) && old(launcherId) != Some(window))
      ensures notifications == old(notifications) && showned == old(showned) && cached == old(cached)
      ensures hidden == old(hidden) && quiteMode == old(quiteMode) && nextWindow == old(nextWindow)
      ensures relay == old(relay) && checkReplies == old(checkReplies)
    {
      launcherOpen := launcherOpen && launcherId != Some(window);
      launcherId := Cleared(launcherId, window);
      rightPanel := Cleared(rightPanel, window);
      hiddenId := Cleared(hiddenId, window);
      calendarId := Cleared(calendarId, window);
      timePickerId := Cleared(timePickerId, window);
    }

    /** `remove_id` (on `WindowClosed`): the window is forgotten everywhere;
        the record it showed is dropped unless it is still live. */
    method RemoveId(window: nat)
      requires Valid()
      modifies this
      ensures Valid()
      ensures IdInfo(window) == None
      ensures LiveIds(notifications) == LiveIds(old(notifications))
      ensures launcherId == Cleared(old(launcherId), window) && hiddenId == Cleared(old(hiddenId), window)
      ensures rightPanel == Cleared(old(rightPanel), window) && calendarId == Cleared(old(calendarId), window)
      ensures timePickerId == Cleared(old(timePickerId), window)
      ensures launcherOpen == (old(launcherOpen) && old(launcherId) != Some(window))
      ensures showned == old(showned) - {window} && cached == old(cached) - {window}
      ensures notifications ==
        if window in old(showned) && old(showned)[window] !in LiveIds(old(notifications))
        then old(notifications) - {old(showned)[window]} else old(notifications)
      ensures hidden == old(hidden) && quiteMode == old(quiteMode) && nextWindow == old(nextWindow)
      ensures relay == old(relay) && checkReplies == old(checkReplies)
    {
      ClearSlots(window);
      if window in showned {
        var nid := showned[window];
        showned := showned - {window};
        if nid !in LiveIds(notifications) {
          DroppedKeepsInvariants(notifications, nid);
          notifications := notifications - {nid};
        }
      }
      cached := cached - {window};
    }
  
    /** Stores the notification stack's new values; nothing else changes. */
    method Commit(n: Records, s: map<nat, nat>, c: map<nat, Info>, h: seq<Info>, quite: bool, hid: Option<nat>, next: nat)
      modifies this
      ensures notifications == n && showned == s && cached == c && hidden == h
      ensures quiteMode == quite && hiddenId == hid && nextWindow == next && OthersKept()
    {
      notifications, showned, cached, hidden, quiteMode, hiddenId, nextWindow := n, s, c, h, quite, hid, next;
    }

    /** The `UnitAdd` arm. A known id only has its unit replaced and
        nothing else happens; a new one is handled as `NewAddition` says. */
    method UnitAdd(unit: NotifyUnit) returns (effects: seq<Effect>, ghost now: seq<nat>, ghost wins: seq<nat>)
      requires Valid()
      modifies this
      ensures Valid()
      ensures quiteMode == old(quiteMode) && cached == old(cached) && OthersKept()
      ensures unit.id in old(notifications) ==>
        notifications == old(notifications)[unit.id := old(notifications)[unit.id].(unit := unit)] && effects == [] && showned == old(showned) && hidden == old(hidden) &&
        hiddenId == old(hiddenId) && nextWindow == old(nextWindow)
      ensures unit.id !in old(notifications) ==>
        NewAddition(old(notifications), old(showned), old(hiddenId), old(nextWindow), old(quiteMode), unit,
                       notifications, showned, hidden, hiddenId, nextWindow, effects, now, wins)
      ensures |old(showned)| <= Config.MaxShownNotificationsCount ==> |showned| <= Config.MaxShownNotificationsCount
    {
      var n2, s2, h2, hid2, next2;
      n2, s2, h2, hid2, next2, effects, now, wins := Addition(notifications, showned, hidden, hiddenId, nextWindow, quiteMode, unit);
      Commit(n2, s2, cached, h2, quiteMode, hid2, next2);
    }

    /** `remove_notify`, the whole `UnitRemove` arm, with the guard
        corrected: an absent or already marked id changes nothing; a live
        one is removed as `LiveRemoval` says, and the hidden queue is
        recomputed. */
    method RemoveNotify(id: nat) returns (effects: seq<Effect>, ghost wins: seq<nat>, ghost live: seq<nat>)
      requires Valid()
      modifies this
      ensures Valid()
      ensures quiteMode == old(quiteMode) && hiddenId == old(hiddenId) && nextWindow == old(nextWindow)
      ensures OthersKept()
      ensures id !in LiveIds(old(notifications)) ==>
        effects == [] && notifications == old(notifications) && showned == old(showned) &&
        cached == old(cached) && hidden == old(hidden)
      ensures id in LiveIds(old(notifications)) ==>
        LiveRemoval(old(notifications), old(showned), old(cached), old(hiddenId), old(quiteMode), id,
                    notifications, showned, cached, effects, wins, live) &&
        ListsHidden(hidden, notifications, quiteMode)
      ensures LiveIds(notifications) == LiveIds(old(notifications)) - {id}
    {
      var n2, s2, c2, h2;
      n2, s2, c2, h2, effects, wins, live := Removal(notifications, showned, cached, hidden, hiddenId, quiteMode, id);
      Commit(n2, s2, c2, h2, quiteMode, hiddenId, nextWindow);
    }

    /** The `QuiteMode` arm. Turning quiet mode on closes every bound window
        and the indicator, in the map's order `order`; turning it off opens a
        fresh window for every record in the four shown slots (marked or
        not), in the map's order `order`, at the record's offset, and the
        indicator when more than four records exist and none is open. The
        records are left alone either way, and the hidden queue is recomputed. */
    method QuiteMode(quite: bool) returns (effects: seq<Effect>, ghost order: seq<nat>)
      requires Valid()
      modifies this
      ensures Valid()
      ensures quiteMode == quite && notifications == old(notifications) && cached == old(cached)
      ensures OthersKept()
      ensures ListsHidden(hidden, notifications, quite)
      ensures quite ==>
        showned == old(showned) && hiddenId == old(hiddenId) && nextWindow == old(nextWindow) &&
        Ordering.Enumerates(order, showned.Keys) && effects == CloseAll(order) + CloseHidden(hiddenId)
      ensures !quite ==>
        Ordering.Enumerates(order, SlotIds(notifications)) && (forall i :: 0 <= i < |order| ==> order[i] in notifications) &&
        showned == old(showned) + Bindings(notifications, order, old(nextWindow))
      ensures !quite ==>
        var indicator := |notifications| > Config.MaxShownNotificationsCount && old(hiddenId).None?;
        var w := old(nextWindow) + |order|;
        effects == Opens(notifications, order, old(nextWindow)) +
          (if indicator then [OpenIndicator(w, Config.ExtraInfMargin)] else []) &&
        hiddenId == (if indicator then Some(w) else old(hiddenId)) &&
        nextWindow == (if indicator then w + 1 else w)
    {
      var s2, h2, hid2, next2;
      s2, h2, hid2, next2, effects, order := Quieting(notifications, showned, hiddenId, nextWindow, quite);
      Commit(notifications, s2, cached, h2, quite, hid2, next2);
    }

    /** The `ClearAllNotifications` arm: every bound window and the
        indicator are closed, the bound records are cached under their
        windows, every record is dropped and an output check follows. */
    method ClearAllNotifications() returns (effects: seq<Effect>, ghost order: seq<nat>, ghost cacheOrder: seq<nat>)
      requires Valid()
      modifies this
      ensures Valid()
      ensures Ordering.Enumerates(order, showned.Keys) && Ordering.Enumerates(cacheOrder, showned.Keys)
      ensures effects == CloseAll(order) + CloseHidden(hiddenId) + [CheckOutput]
      ensures cached == Cached(old(cached), old(notifications), showned, cacheOrder)
      ensures notifications == map[] && hidden == []
      ensures showned == old(showned) && quiteMode == old(quiteMode) && hiddenId == old(hiddenId)
      ensures nextWindow == old(nextWindow) && OthersKept()
    {
      var c2, h2;
      c2, h2, effects, order, cacheOrder := Clearing(notifications, showned, cached, hiddenId, quiteMode);
      Commit(map[], showned, c2, h2, quiteMode, hiddenId, nextWindow);
    }

    /** The `InlineReplyMsgUpdate` arm: the text typed into `window`'s reply
        box is stored on its record; an unbound window is ignored, and a
        bound window whose record is gone panics (`unwrap`). */
    method InlineReplyMsgUpdate(window: nat, text: string) returns (out: Outcome)
      requires Valid()
      modifies this
      ensures Valid()
      ensures out == Panicked <==> window in old(showned) && old(showned)[window] !in old(notifications)
      ensures out != Panicked ==> out == Done([])
      ensures notifications ==
        if window in old(showned) && old(showned)[window] in old(notifications)
        then old(notifications)[old(showned)[window] := old(notifications)[old(showned)[window]].(inlineReply := text)]
        else old(notifications)
      ensures LiveIds(notifications) == LiveIds(old(notifications))
      ensures showned == old(showned) && cached == old(cached) && hidden == old(hidden)
      ensures quiteMode == old(quiteMode) && hiddenId == old(hiddenId) && nextWindow == old(nextWindow)
      ensures OthersKept()
    {
      if window !in showned {
        return Done([]);
      }
      var nid := showned[window];
      if nid !in notifications {
        return Panicked;
      }
      ReplyTextKeepsInvariants(notifications, nid, text);
      notifications := notifications[nid := notifications[nid].(inlineReply := text)];
      out := Done([]);
    }

    /** The `Ready` arm: installs the relay to the notification server. */
    method Ready(sender: Queue<NotifyCommand>)
      modifies this`relay
      ensures relay == Some(sender)
    {
      relay := Some(sender);
    }

    /** The `ReadyCheck` arm: installs the channel `CheckId` answers on. */
    method ReadyCheck(sender: Queue<bool>)
      modifies this`checkReplies
      ensures checkReplies == Some(sender)
    {
      checkReplies := Some(sender);
    }

    /** The `CheckId` arm: answers whether a record for `id` exists, through
        `try_send` (lost when the channel is full); panics before `ReadyCheck`. */
    method CheckId(id: nat) returns (out: Outcome)
      modifies this`checkReplies
      ensures out == Panicked <==> old(checkReplies).None?
      ensures out != Panicked ==> out == Done([]) && checkReplies == Some(old(checkReplies).value.TrySend(id in notifications).0)
      ensures out == Panicked ==> checkReplies == old(checkReplies)
    {
      if checkReplies.None? {
        return Panicked;
      }
      checkReplies := Some(checkReplies.value.TrySend(id in notifications).0);
      out := Done([]);
    }

    /** The `InlineReply` arm: relays the reply to the server (lost when the
        relay is full), then removes the notification; panics before `Ready`. */
    method InlineReply(id: nat, text: string) returns (out: Outcome, ghost wins: seq<nat>, ghost live: seq<nat>)
      requires Valid()
      modifies this
      ensures Valid()
      ensures out == Panicked <==> old(relay).None?
      ensures out == Panicked ==> unchanged(this)
      ensures out != Panicked ==> relay == Some(old(relay).value.TrySend(NotifyCommand.InlineReply(id, text)).0)
      ensures out != Panicked ==>
        quiteMode == old(quiteMode) && hiddenId == old(hiddenId) && nextWindow == old(nextWindow) && SlotsKept()
      ensures out != Panicked && id !in LiveIds(old(notifications)) ==>
        out == Done([]) && notifications == old(notifications) && showned == old(showned) &&
        cached == old(cached) && hidden == old(hidden)
      ensures out != Panicked && id in LiveIds(old(notifications)) ==>
        out.Done? && LiveRemoval(old(notifications), old(showned), old(cached), old(hiddenId), old(quiteMode), id,
                                 notifications, showned, cached, out.effects, wins, live) &&
        ListsHidden(hidden, notifications, quiteMode)
      ensures out != Panicked ==> LiveIds(notifications) == LiveIds(old(notifications)) - {id}
    {
      if relay.None? {
        out, wins, live := Panicked, [], [];
        return;
      }
      relay := Some(relay.value.TrySend(NotifyCommand.InlineReply(id, text)).0);
      var effects;
      effects, wins, live := RemoveNotify(id);
      out := Done(effects);
    }

    /** The `RemoveNotify` arm (a click, or an expired timer): relays the
        default action to the server (lost when the relay is full), then
        removes the notification; panics before `Ready`. */
    method RemoveNotifyMsg(id: nat) returns (out: Outcome, ghost wins: seq<nat>, ghost live: seq<nat>)
      requires Valid()
      modifies this
      ensures Valid()
      ensures out == Panicked <==> old(relay).None?
      ensures out == Panicked ==> unchanged(this)
      ensures out != Panicked ==> relay == Some(old(relay).value.TrySend(NotifyCommand.ActionInvoked(id, defaultAction)).0)
      ensures out != Panicked ==>
        quiteMode == old(quiteMode) && hiddenId == old(hiddenId) && nextWindow == old(nextWindow) && SlotsKept()
      ensures out != Panicked && id !in LiveIds(old(notifications)) ==>
        out == Done([]) && notifications == old(notifications) && showned == old(showned) &&
        cached == old(cached) && hidden == old(hidden)
      ensures out != Panicked && id in LiveIds(old(notifications)) ==>
        out.Done? && LiveRemoval(old(notifications), old(showned), old(cached), old(hiddenId), old(quiteMode), id,
                                 notifications, showned, cached, out.effects, wins, live) &&
        ListsHidden(hidden, notifications, quiteMode)
      ensures out != Panicked ==> LiveIds(notifications) == LiveIds(old(notifications)) - {id}
    {
      if relay.None? {
        out, wins, live := Panicked, [], [];
        return;
      }
      relay := Some(relay.value.TrySend(NotifyCommand.ActionInvoked(id, defaultAction)).0);
      var effects;
      effects, wins, live := RemoveNotify(id);
      out := Done(effects);
    }
  }
}
