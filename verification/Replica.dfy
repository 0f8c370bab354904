/**
 The cache of device replicas: one state per view of a storage, found through handles,
 and dropped when its last handle leaves.
 */
module DeviceReplicas {
  import opened DependencyOrder

  // One byte range of one storage.
  datatype View = View(storage: nat, offset: nat, bytes: nat) {
    predicate Overlaps(other: View) {
      storage == other.storage && bytes != 0 && other.bytes != 0 &&
      if offset <= other.offset then other.offset - offset < bytes else offset - other.offset < other.bytes
    }

    predicate Contains(other: View) {
      storage == other.storage && other.offset >= offset && other.offset - offset <= bytes &&
        other.bytes <= bytes - (other.offset - offset)
    }

    ghost predicate Has(at: nat) { offset <= at < offset + bytes }
  }

  /** Views overlap exactly if they have a byte in common; a view with bytes is contained exactly if all of them are. */
  lemma ViewsAsRanges(a: View, b: View)
    ensures a.Overlaps(b) <==> a.storage == b.storage && exists at: nat :: a.Has(at) && b.Has(at)
    ensures b.bytes != 0 ==> (a.Contains(b) <==> a.storage == b.storage && forall at: nat :: b.Has(at) ==> a.Has(at))
  {
    if a.Overlaps(b) {
      var at := if a.offset <= b.offset then b.offset else a.offset;
      assert a.Has(at) && b.Has(at);
    }
    if b.bytes != 0 && forall at: nat :: b.Has(at) ==> a.Has(at) {
      assert b.Has(b.offset) && b.Has(b.offset + b.bytes - 1);
      assert a.Has(b.offset) && a.Has(b.offset + b.bytes - 1);
    }
  }

  // ---- The tables as values ----

  type Handles = map<nat, View>
  type Users = map<View, set<nat>>
  type Buckets = map<nat, set<View>>
  type Replicas = map<View, nat>

  ghost predicate Uses(handles: Handles, h: nat, v: View) { h in handles && handles[h] == v }

  ghost predicate UsedBy(users: Users, v: View, h: nat) { v in users && h in users[v] }

  ghost predicate InBucket(buckets: Buckets, s: nat, v: View) { s in buckets && v in buckets[s] }

  // Handle to view and view to handles are inverse.
  ghost predicate HandlesAgree(handles: Handles, users: Users) {
    forall h, v :: Uses(handles, h, v) <==> UsedBy(users, v, h)
  }

  // The buckets partition the views by storage, none of them empty.
  ghost predicate BucketsAgree(buckets: Buckets, views: set<View>) {
    (forall s, v :: InBucket(buckets, s, v) <==> v in views && v.storage == s) &&
      forall s :: s in buckets ==> buckets[s] != {}
  }

  ghost predicate Holds(replicas: Replicas, id: nat) { exists v :: v in replicas && replicas[v] == id }

  // Every state created is held by one view or has been given back once.
  ghost predicate StatesAgree(replicas: Replicas, created: nat, orphans: seq<nat>) {
    (forall v, w :: v in replicas && w in replicas && replicas[v] == replicas[w] ==> v == w) && Distinct(orphans) &&
    (forall id: nat :: id in orphans || Holds(replicas, id) <==> id < created) &&
      forall v :: v in replicas ==> replicas[v] !in orphans
  }

  function HandlesOf(users: Users, v: View): set<nat> { if v in users then users[v] else {} }

  function BucketOf(buckets: Buckets, s: nat): set<View> { if s in buckets then buckets[s] else {} }

  lemma Attached(handles: Handles, users: Users, h: nat, v: View)
    requires HandlesAgree(handles, users) && (h in handles ==> handles[h] == v)
    ensures HandlesAgree(handles[h := v], users[v := HandlesOf(users, v) + {h}])
  {
    var more, all := handles[h := v], users[v := HandlesOf(users, v) + {h}];
    forall g, w ensures Uses(more, g, w) <==> UsedBy(all, w, g) {
      assert Uses(handles, g, w) <==> UsedBy(users, w, g);
    }
  }

  lemma Detached(handles: Handles, users: Users, h: nat)
    requires HandlesAgree(handles, users) && h in handles
    ensures handles[h] in users
    ensures var v := handles[h]; HandlesAgree(handles - {h}, users[v := users[v] - {h}])
  {
    var v := handles[h];
    assert Uses(handles, h, v);
    var fewer, left := handles - {h}, users[v := users[v] - {h}];
    forall g, w ensures Uses(fewer, g, w) <==> UsedBy(left, w, g) {
      assert Uses(handles, g, w) <==> UsedBy(users, w, g);
    }
  }

  lemma Forgotten(handles: Handles, users: Users, v: View)
    requires HandlesAgree(handles, users) && v in users && users[v] == {}
    ensures HandlesAgree(handles, users - {v})
  {
    forall g, w
      ensures Uses(handles, g, w) <==> UsedBy(users - {v}, w, g)
    {
      assert Uses(handles, g, w) <==> UsedBy(users, w, g);
    }
  }

  lemma BucketGrows(buckets: Buckets, views: set<View>, v: View)
    requires BucketsAgree(buckets, views)
    ensures BucketsAgree(buckets[v.storage := BucketOf(buckets, v.storage) + {v}], views + {v})
  {
    var after := buckets[v.storage := BucketOf(buckets, v.storage) + {v}];
    forall s, w
      ensures InBucket(after, s, w) <==> w in views + {v} && w.storage == s
    {
      assert InBucket(buckets, s, w) <==> w in views && w.storage == s;
    }
  }

  function WithoutView(buckets: Buckets, v: View): Buckets {
    var left := BucketOf(buckets, v.storage) - {v};
    if left == {} then buckets - {v.storage} else buckets[v.storage := left]
  }

  lemma BucketShrinks(buckets: Buckets, views: set<View>, v: View)
    requires BucketsAgree(buckets, views) && v in views
    ensures BucketsAgree(WithoutView(buckets, v), views - {v})
  {
    forall s, w ensures InBucket(WithoutView(buckets, v), s, w) <==> w in views - {v} && w.storage == s {
      assert InBucket(buckets, s, w) <==> w in views && w.storage == s;
      assert s == v.storage && InBucket(buckets, s, w) && w != v ==> w in BucketOf(buckets, v.storage) - {v};
    }
  }

  // A view without a state gets the given one.
  function Emplaced(replicas: Replicas, v: View, id: nat): Replicas {
    if v in replicas then replicas else replicas[v := id]
  }

  lemma StateCreated(replicas: Replicas, created: nat, orphans: seq<nat>, v: View)
    requires StatesAgree(replicas, created, orphans) && v !in replicas
    ensures StatesAgree(replicas[v := created], created + 1, orphans)
  {
    var after := replicas[v := created];
    forall id: nat ensures id in orphans || Holds(after, id) <==> id < created + 1 {
      assert id in orphans || Holds(replicas, id) <==> id < created;
      if Holds(replicas, id) {
        var w :| w in replicas && replicas[w] == id;
        assert w in after && after[w] == id;
      }
      if id == created { assert after[v] == id; }
    }
    forall w | w in replicas ensures replicas[w] < created { assert Holds(replicas, replicas[w]); }
  }

  lemma StateOrphaned(replicas: Replicas, created: nat, orphans: seq<nat>, v: View)
    requires StatesAgree(replicas, created, orphans) && v in replicas
    ensures StatesAgree(replicas - {v}, created, orphans + [replicas[v]])
  {
    var after, more := replicas - {v}, orphans + [replicas[v]];
    forall id: nat ensures id in more || Holds(after, id) <==> id < created {
      assert id in orphans || Holds(replicas, id) <==> id < created;
      if Holds(replicas, id) && id != replicas[v] {
        var w :| w in replicas && replicas[w] == id;
        assert w in after && after[w] == id;
      }
    }
  }

  // A state is known by a number; `created` counts them and `orphans` lists those given back.
  class DeviceReplicaIndex {
    var replicas: Replicas
    var storageViews: Buckets
    var handles: Handles
    var viewHandles: Users
    var created: nat
    var orphans: seq<nat>

    // The four tables agree: each replica has users and is in its storage's bucket.
    ghost predicate Valid()
      reads this
    {
      HandlesAgree(handles, viewHandles) && viewHandles.Keys == replicas.Keys &&
        (forall v :: v in viewHandles ==> viewHandles[v] != {}) &&
      BucketsAgree(storageViews, replicas.Keys) && StatesAgree(replicas, created, orphans)
    }

    constructor ()
      ensures Valid() && handles == map[] && orphans == [] && created == 0
    {
      replicas, storageViews, handles, viewHandles, created, orphans := map[], map[], map[], map[], 0, [];
      new;
      assert forall id: nat :: !Holds(replicas, id);
    }

    ghost predicate LastHandle(handle: nat)
      reads this
    {
      handle in handles && handles[handle] in viewHandles && handles[handle] in replicas &&
        viewHandles[handles[handle]] == {handle}
    }

    // Removes a view without users from every table and gives its state back.
    method Orphan(view: View)
      requires view in replicas && view in viewHandles && viewHandles[view] == {} && HandlesAgree(handles, viewHandles)
      requires viewHandles.Keys == replicas.Keys && forall v :: v in viewHandles && v != view ==> viewHandles[v] != {}
      requires BucketsAgree(storageViews, replicas.Keys) && StatesAgree(replicas, created, orphans)
      modifies this`replicas, this`viewHandles, this`storageViews, this`orphans
      ensures Valid() && replicas == old(replicas) - {view} && orphans == old(orphans) + [old(replicas)[view]]
    {
      StateOrphaned(replicas, created, orphans, view);
      BucketShrinks(storageViews, replicas.Keys, view);
      Forgotten(handles, viewHandles, view);
      orphans := orphans + [replicas[view]];
      replicas := replicas - {view};
      viewHandles := viewHandles - {view};
      storageViews := WithoutView(storageViews, view);
      assert replicas.Keys == old(replicas).Keys - {view};
    }

    /** Detaches a handle; the state of its view is given back exactly when that was the last one. */
    method EraseHandle(handle: nat)
      requires Valid()
      modifies this
      ensures Valid() && handles == old(handles) - {handle} && created == old(created)
      ensures if old(LastHandle(handle)) then replicas == old(replicas) - {old(handles)[handle]} &&
        orphans == old(orphans) + [old(replicas)[old(handles)[handle]]]
              else replicas == old(replicas) && orphans == old(orphans)
    {
      if handle !in handles { return; }
      var view := handles[handle];
      Detached(handles, viewHandles, handle);
      var left := viewHandles[view] - {handle};
      assert Uses(handles, handle, view);
      viewHandles := viewHandles[view := left];
      handles := handles - {handle};
      if left == {} { Orphan(view); }
    }

    method Attach(handle: nat, view: View)
      requires HandlesAgree(handles, viewHandles) && (handle in handles ==> handles[handle] == view)
      requires forall v :: v in viewHandles ==> viewHandles[v] != {}
      modifies this`handles, this`viewHandles
      ensures HandlesAgree(handles, viewHandles) && handles == old(handles)[handle := view]
      ensures viewHandles.Keys == old(viewHandles).Keys + {view} &&
        forall v :: v in viewHandles ==> viewHandles[v] != {}
    {
      Attached(handles, viewHandles, handle, view);
      handles := handles[handle := view];
      viewHandles := viewHandles[view := HandlesOf(viewHandles, view) + {handle}];
    }

    // Finds the state of a view, or creates one in a bucket of its storage.
    method Emplace(view: View) returns (state: nat)
      requires BucketsAgree(storageViews, replicas.Keys) && StatesAgree(replicas, created, orphans)
      modifies this`replicas, this`storageViews, this`created
      ensures BucketsAgree(storageViews, replicas.Keys) && StatesAgree(replicas, created, orphans)
      ensures replicas == Emplaced(old(replicas), view, old(created)) &&
        created == if view in old(replicas) then old(created) else old(created) + 1
      ensures replicas.Keys == old(replicas).Keys + {view} && state == replicas[view]
    {
      if view !in replicas {
        StateCreated(replicas, created, orphans, view);
        BucketGrows(storageViews, replicas.Keys, view);
        storageViews := storageViews[view.storage := BucketOf(storageViews, view.storage) + {view}];
        replicas := replicas[view := created];
        created := created + 1;
        assert replicas.Keys == old(replicas).Keys + {view};
      }
      state := replicas[view];
    }

    // The view a handle would leave without users by moving to another view.
    ghost predicate Deserts(handle: nat, view: View)
      reads this
    {
      LastHandle(handle) && handles[handle] != view
    }

    // The replicas left by that move.
    ghost function Kept(handle: nat, view: View): Replicas
      reads this
    {
      if Deserts(handle, view) then replicas - {handles[handle]} else replicas
    }

    // Lets a handle go unless it already uses the view.
    method Leave(handle: nat, view: View)
      requires Valid()
      modifies this
      ensures Valid() && created == old(created) && (handle in handles ==> handles[handle] == view)
      ensures handles[handle := view] == old(handles)[handle := view]
      ensures replicas == old(Kept(handle, view))
      ensures orphans == if old(Deserts(handle,
        view)) then old(orphans) + [old(replicas)[old(handles)[handle]]] else old(orphans)
    {
      if handle in handles && handles[handle] != view { EraseHandle(handle); }
    }

    /**
     Makes a handle a user of a view. It leaves the view it used before, whose state is given back if
     that was its last handle; a view without a state gets a new one, any other keeps its own.
     */
    method Bind(handle: nat, view: View) returns (state: nat)
      requires Valid()
      modifies this
      ensures Valid() && handles == old(handles)[handle := view] && view in replicas && state == replicas[view]
      ensures replicas == Emplaced(old(Kept(handle, view)), view, old(created))
      ensures created == if view in old(Kept(handle, view)) then old(created) else old(created) + 1
      ensures orphans == if old(Deserts(handle,
        view)) then old(orphans) + [old(replicas)[old(handles)[handle]]] else old(orphans)
    {
      Leave(handle, view);
      state := Emplace(view);
      Attach(handle, view);
    }
  }
}
