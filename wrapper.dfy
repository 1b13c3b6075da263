/**
 * The snapshot wrapper of a stateful session bean (SFSB): the session id it is
 * bound to, the bean's class name ("type") and the bag of property values that
 * can be serialized. Beans are objects of a declared class; PHP reflection over
 * their properties is replaced by the bean's own field map and, for a fresh
 * instance, by a table of declared properties and default values per class.
 */
module SessionBeanWrapper {
  import opened Nullable

  /** A property value, classified as far as the wrapper needs to look at it. */
  datatype Value = Thread | Stackable | Null | Other(text: string)

  /** Instances of `\Thread` and `\Stackable` cannot be serialized; every other value can. */
  predicate Persistable(v: Value)
  {
    !v.Thread? && !v.Stackable?
  }

  /** A bean instance: its class and its properties, by name. */
  class Bean {
    const className: string
    var fields: map<string, Value>

    /** `new $className()`: every declared property holds the class's default. */
    constructor (className: string, defaults: map<string, Value>)
      ensures this.className == className && fields == defaults
    {
      this.className := className;
      fields := defaults;
    }
  }

  /** The state of a bean at one moment, as a value. */
  datatype BeanView = BeanView(className: string, fields: map<string, Value>)

  function ViewOf(b: Bean): BeanView
    reads b
  {
    BeanView(b.className, b.fields)
  }

  /** The bean objects a registry refers to. */
  function BeanObjects(m: map<string, Option<Bean>>): set<Bean>
  {
    set id | id in m && m[id].Some? :: m[id].value
  }

  /** The registry with every bean replaced by its current state. */
  function Views(m: map<string, Option<Bean>>): map<string, Option<BeanView>>
    reads BeanObjects(m)
  {
    map id | id in m :: if m[id].Some? then Some(ViewOf(m[id].value)) else None
  }

  lemma ViewsRemove(m: map<string, Option<Bean>>, id: string)
    ensures Views(m - {id}) == Views(m) - {id}
  {
  }

  lemma ViewsAdd(m: map<string, Option<Bean>>, id: string, b: Bean)
    ensures Views(m[id := Some(b)]) == Views(m)[id := Some(ViewOf(b))]
  {
  }

  /** The declared properties and their default values, for each bean class the class loader knows. */
  type ClassTable = map<string, map<string, Value>>

  /** The wrapper's three properties as a value: what `serialize` sees. */
  datatype Snapshot = Snapshot(id: Option<string>, beanType: Option<string>, data: map<string, Value>)

  /** `md5($id . serialize($data))`: any function of the id text and the data. */
  type Digest = (string, map<string, Value>) -> string

  /** The checksum of a wrapper: the digest of its id (null reads as "") and its data. */
  function ChecksumOf(s: Snapshot, digest: Digest): string
  {
    digest(AsText(s.id), s.data)
  }

  /** The checksum never looks at the bean type, and equal (id, data) give equal checksums. */
  lemma ChecksumIgnoresType(a: Snapshot, b: Snapshot, digest: Digest)
    requires a.id == b.id && a.data == b.data
    ensures ChecksumOf(a, digest) == ChecksumOf(b, digest)
  {
  }

  /** A null id and an empty id are concatenated alike, so they give the same checksum. */
  lemma ChecksumNullIdAsEmpty(data: map<string, Value>, beanType: Option<string>, digest: Digest)
    ensures ChecksumOf(Snapshot(None, beanType, data), digest) == ChecksumOf(Snapshot(Some(""), beanType, data), digest)
  {
  }

  /** The properties of a bean that `fromStatefulSessionBean` stores. */
  function SafeFields(fields: map<string, Value>): map<string, Value>
  {
    map name | name in fields && Persistable(fields[name]) :: fields[name]
  }

  /**
   * The properties of a fresh instance after `toStatefulSessionBean`: a declared
   * property takes the stored value when `isset` holds for it (present and not
   * null) and keeps its default otherwise; stored names that are not declared
   * are ignored.
   */
  function Restore(defaults: map<string, Value>, data: map<string, Value>): map<string, Value>
  {
    map name | name in defaults :: if name in data && data[name] != Null then data[name] else defaults[name]
  }

  /** The bean `toStatefulSessionBean` builds from a snapshot, or None when `new $type()` fails. */
  function Instantiate(s: Snapshot, classes: ClassTable): Option<BeanView>
  {
    if s.beanType.Some? && s.beanType.value in classes
    then Some(BeanView(s.beanType.value, Restore(classes[s.beanType.value], s.data)))
    else None
  }

  /**
   * The snapshot of `new StatefulSessionBeanWrapper($id)` after
   * `fromStatefulSessionBean($bean)`: the id unless it is loosely null, the
   * bean's class, and its persistable properties.
   */
  function WrapperFor(id: string, v: BeanView): Snapshot
  {
    Snapshot(if LooselyNull(Some(id)) then None else Some(id), Some(v.className), SafeFields(v.fields))
  }

  /** The id text of a fresh wrapper is the session id, so its checksum is the digest of (id, persistable fields). */
  lemma WrapperForChecksum(id: string, v: BeanView, digest: Digest)
    ensures ChecksumOf(WrapperFor(id, v), digest) == digest(id, SafeFields(v.fields))
  {
  }

  /** `fromStatefulSessionBean` keeps a property exactly when its value is persistable, and keeps it unchanged. */
  lemma SafeFieldsExact(fields: map<string, Value>, name: string)
    ensures name in SafeFields(fields) <==> name in fields && Persistable(fields[name])
    ensures name in SafeFields(fields) ==> SafeFields(fields)[name] == fields[name]
  {
  }

  /** A restored instance has exactly the declared properties of its class. */
  lemma RestoreDeclaredOnly(defaults: map<string, Value>, data: map<string, Value>)
    ensures Restore(defaults, data).Keys == defaults.Keys
  {
  }

  /** A property is assigned from the data exactly when the data holds a non-null value for it. */
  lemma RestoreAssignsIsset(defaults: map<string, Value>, data: map<string, Value>, name: string)
    requires name in defaults
    ensures name in data && data[name] != Null ==> Restore(defaults, data)[name] == data[name]
    ensures !(name in data && data[name] != Null) ==> Restore(defaults, data)[name] == defaults[name]
  {
  }

  /** No field holds a thread, a stackable or null: every field survives the snapshot and is restored. */
  predicate RoundTripSafe(fields: map<string, Value>)
  {
    forall name :: name in fields ==> fields[name].Other?
  }

  /**
   * Round trip: a bean whose class declares exactly its properties and whose
   * values are all plain values comes back with the same class and the same
   * values from `toStatefulSessionBean` after `fromStatefulSessionBean`.
   */
  lemma SnapshotRoundTrip(id: string, v: BeanView, classes: ClassTable)
    requires v.className in classes && classes[v.className].Keys == v.fields.Keys
    requires RoundTripSafe(v.fields)
    ensures Instantiate(WrapperFor(id, v), classes) == Some(v)
  {
    var restored := Restore(classes[v.className], SafeFields(v.fields));
    assert restored.Keys == v.fields.Keys;
    forall name | name in v.fields
      ensures restored[name] == v.fields[name]
    {
      assert v.fields[name].Other?;
    }
    assert restored == v.fields;
  }

  /** The wrapper object (`StatefulSessionBeanWrapper`). */
  class Wrapper {
    var id: Option<string>
    var beanType: Option<string>
    var data: map<string, Value>

    function State(): Snapshot
      reads this
    {
      Snapshot(id, beanType, data)
    }

    /** The id is set only when the argument is not loosely null; the data starts empty. */
    constructor (id: Option<string>)
      ensures LooselyNull(id) ==> this.id.None?
      ensures !LooselyNull(id) ==> this.id == id
      ensures beanType.None? && data == map[]
    {
      this.id := None;
      beanType := None;
      data := map[];
      new;
      if !LooselyNull(id) {
        SetId(id);
      }
    }

    /** The wrapper `unserialize` rebuilds from a stored snapshot. */
    constructor Unserialized(s: Snapshot)
      ensures State() == s
    {
      id, beanType, data := s.id, s.beanType, s.data;
    }

    method SetId(id: Option<string>)
      modifies this
      ensures GetId() == id
      ensures beanType == old(beanType) && data == old(data)
    {
      this.id := id;
    }

    function GetId(): Option<string>
      reads this
    {
      id
    }

    method SetData(data: map<string, Value>)
      modifies this
      ensures GetData() == data
      ensures id == old(id) && beanType == old(beanType)
    {
      this.data := data;
    }

    function GetData(): map<string, Value>
      reads this
    {
      data
    }

    method SetType(beanType: Option<string>)
      modifies this
      ensures GetType() == beanType
      ensures id == old(id) && data == old(data)
    {
      this.beanType := beanType;
    }

    function GetType(): Option<string>
      reads this
    {
      beanType
    }

    function Checksum(digest: Digest): string
      reads this
    {
      ChecksumOf(State(), digest)
    }

    /**
     * Records the bean's class and copies every persistable property into the
     * data, overwriting an entry of the same name and leaving the others.
     */
    method FromStatefulSessionBean(bean: Bean)
      modifies this
      ensures beanType == Some(bean.className)
      ensures id == old(id)
      ensures data == old(data) + SafeFields(bean.fields)
    {
      SetType(Some(bean.className));
      var pending := bean.fields.Keys;
      ghost var copied: set<string> := {};
      while pending != {}
        invariant pending + copied == bean.fields.Keys && pending !! copied
        invariant beanType == Some(bean.className) && id == old(id)
        invariant forall name :: name in data <==> name in old(data) || (name in copied && Persistable(bean.fields[name]))
        invariant forall name :: name in data ==>
                    data[name] == if name in copied && Persistable(bean.fields[name]) then bean.fields[name] else old(data)[name]
        decreases pending
      {
        var name :| name in pending;
        pending := pending - {name};
        copied := copied + {name};
        var value := bean.fields[name];
        if value.Thread? {
          continue;
        }
        if value.Stackable? {
          continue;
        }
        data := data[name := value];
      }
    }

    /**
     * A new instance of the wrapped class whose declared properties take the
     * stored non-null values; None when the class cannot be instantiated.
     */
    method ToStatefulSessionBean(classes: ClassTable) returns (instance: Option<Bean>)
      ensures instance.None? <==> Instantiate(State(), classes).None?
      ensures instance.Some? ==> fresh(instance.value) && Some(ViewOf(instance.value)) == Instantiate(State(), classes)
    {
      if beanType.None? || beanType.value !in classes {
        return None;
      }
      var className := beanType.value;
      var defaults := classes[className];
      var bean := new Bean(className, defaults);
      var pending := defaults.Keys;
      while pending != {}
        invariant pending <= defaults.Keys
        invariant bean.fields.Keys == defaults.Keys
        invariant forall name :: name in defaults ==>
                    bean.fields[name] == if name !in pending && name in data && data[name] != Null then data[name] else defaults[name]
        decreases pending
      {
        var name :| name in pending;
        pending := pending - {name};
        if name in data && data[name] != Null {
          bean.fields := bean.fields[name := data[name]];
        }
      }
      assert bean.fields == Restore(defaults, data);
      instance := Some(bean);
    }
  }
}
