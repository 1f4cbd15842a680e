/**
  `register_console_action` and the `ConsoleActionCache` it fills. Registering
  spawns a new observer entity running the given system and records, in the
  cache, which observer belongs to the action. The cache is a map keyed by the
  action's full structural value, so a second registration of an equal action
  replaces the first mapping; the first observer stays in the world.
 */
module ActionRegistry {
  import opened Outcomes
  import opened ConsoleActions

  /** An entity id. New entities take the next id from a counter. */
  type EntityId = nat

  /**
    The part of the app's world that action registration touches: the
    `ConsoleActionCache` resource (absent until the first registration), the
    observer entities with the system each one runs, and the next free entity id.
   */
  datatype ActionWorld<K(==), M(==), S> = ActionWorld(
    cache: Option<map<ConsoleAction<K, M>, EntityId>>,
    observers: map<EntityId, S>,
    nextEntity: EntityId)

  /** The cache as `init_resource` leaves it: the existing one, or an empty one. */
  function CacheOf<K(==), M(==), S>(w: ActionWorld<K, M, S>): map<ConsoleAction<K, M>, EntityId> {
    w.cache.GetOr(map[])
  }

  /** Entity ids below the counter are the only ones in use, and the cache points at live observers. */
  ghost predicate Valid<K, M, S>(w: ActionWorld<K, M, S>) {
    && (forall id :: id in w.observers ==> id < w.nextEntity)
    && (forall a :: a in CacheOf(w) ==> CacheOf(w)[a] in w.observers)
  }

  /** `register_console_action(action, system)`. */
  function Register<K(==), M(==), S>(w: ActionWorld<K, M, S>, action: ConsoleAction<K, M>, system: S): (r: ActionWorld<K, M, S>)
    ensures r.cache.Some? && action in r.cache.value
    ensures r.cache.value[action] == w.nextEntity && w.nextEntity in r.observers && r.observers[w.nextEntity] == system
    ensures r.cache.value.Keys == CacheOf(w).Keys + {action}
    ensures forall b :: b in CacheOf(w) && b != action ==> r.cache.value[b] == CacheOf(w)[b]
    ensures r.nextEntity > w.nextEntity
    ensures Valid(w) ==> Valid(r) && w.nextEntity !in w.observers && |r.observers| == |w.observers| + 1
    ensures Valid(w) ==> forall id :: id in w.observers ==> id in r.observers && r.observers[id] == w.observers[id]
  {
    var id := w.nextEntity;
    var observers := w.observers[id := system];
    assert observers.Keys == w.observers.Keys + {id};
    ActionWorld(Some(CacheOf(w)[action := id]), observers, id + 1)
  }

  /**
    Registering an equal action twice: the cache keeps the second observer, and
    the first observer is still in the world, no longer reachable from the cache.
   */
  lemma LastRegistrationWins<K, M, S>(w: ActionWorld<K, M, S>, action: ConsoleAction<K, M>, first: S, second: S)
    requires Valid(w)
    ensures var w1 := Register(w, action, first);
            var w2 := Register(w1, action, second);
            && CacheOf(w2)[action] == w1.nextEntity
            && CacheOf(w2).Keys == CacheOf(w).Keys + {action}
            && w.nextEntity in w2.observers && w2.observers[w.nextEntity] == first
            && CacheOf(w2)[action] != w.nextEntity
            && |w2.observers| == |w.observers| + 2
  {
  }

  /** A world without the cache resource, as before any action is registered. */
  function EmptyWorld<K(==), M(==), S>(nextEntity: EntityId): (w: ActionWorld<K, M, S>)
    ensures Valid(w) && CacheOf(w) == map[]
  {
    ActionWorld(None, map[], nextEntity)
  }
}
