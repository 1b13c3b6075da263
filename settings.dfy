/**
 * The settings of the stateful session bean container
 * (`DefaultStatefulSessionBeanSettings`). The PHP object keeps its settings
 * as dynamic properties, so it is modelled as a property bag: a property
 * exists once the constructor or a setter has written it, and a missing
 * property reads as null.
 */
module StatefulSessionBeanSettings {

  /** A PHP scalar as it can come from the configuration. The probability is kept as an opaque number. */
  datatype Scalar = Int(i: int) | Str(s: string) | Float(f: real) | Null

  const SessionMaximumAgeKey := "sessionMaximumAge"
  const InactivityTimeoutKey := "inactivityTimeout"
  const SessionFilePrefixKey := "sessionFilePrefix"
  const GarbageCollectionProbabilityKey := "garbageCollectionProbability"
  const SessionSavePathKey := "sessionSavePath"

  const DefaultSessionFilePrefix := "sfsb_"
  const DefaultInactivityTimeout := 1440
  const DefaultSessionMaximumAge := 1440
  const DefaultGarbageCollectionProbability := 0.1

  /** The properties `mergeWithParams` leaves behind: an existing property takes the param of its name when there is one. */
  function Merged(props: map<string, Scalar>, params: map<string, Scalar>): map<string, Scalar>
  {
    map name | name in props :: if name in params then params[name] else props[name]
  }

  /** Merging never creates a property, and overwrites an existing one exactly when the params name it. */
  lemma MergeOverwritesExistingOnly(props: map<string, Scalar>, params: map<string, Scalar>, name: string)
    ensures Merged(props, params).Keys == props.Keys
    ensures name in props && name in params ==> Merged(props, params)[name] == params[name]
    ensures name in props && name !in params ==> Merged(props, params)[name] == props[name]
  {
  }

  /** Merging the same params a second time changes nothing. */
  lemma MergeIdempotent(props: map<string, Scalar>, params: map<string, Scalar>)
    ensures Merged(Merged(props, params), params) == Merged(props, params)
  {
  }

  /** Merging no params changes nothing. */
  lemma MergeEmpty(props: map<string, Scalar>)
    ensures Merged(props, map[]) == props
  {
  }

  /** The properties the constructor writes. */
  function DefaultProperties(): map<string, Scalar>
  {
    map[SessionMaximumAgeKey := Int(DefaultSessionMaximumAge),
        InactivityTimeoutKey := Int(DefaultInactivityTimeout),
        SessionFilePrefixKey := Str(DefaultSessionFilePrefix),
        GarbageCollectionProbabilityKey := Float(DefaultGarbageCollectionProbability)]
  }

  /**
   * The constructor does not create the save path property, so a merged
   * save path is dropped until a setter has created the property.
   */
  lemma SavePathNeedsSetter(path: string, params: map<string, Scalar>)
    ensures SessionSavePathKey !in Merged(DefaultProperties(), params)
    ensures var withPath := DefaultProperties()[SessionSavePathKey := Str(path)];
            SessionSavePathKey in params ==> Merged(withPath, params)[SessionSavePathKey] == params[SessionSavePathKey]
  {
  }

  class Settings {
    var props: map<string, Scalar>

    /** The value of a property; an undefined property reads as null. */
    function Property(name: string): Scalar
      reads this
    {
      if name in props then props[name] else Null
    }

    /**
     * What the persistence manager relies on: timeouts and maximum age are
     * integers, the prefix and the save path are strings (the documented types).
     */
    predicate Configured()
      reads this
    {
      && Property(SessionMaximumAgeKey).Int?
      && Property(InactivityTimeoutKey).Int?
      && Property(SessionFilePrefixKey).Str?
      && Property(SessionSavePathKey).Str?
    }

    /** Maximum age 1440, inactivity timeout 1440, prefix "sfsb_", probability 0.1; no save path. */
    constructor ()
      ensures props == DefaultProperties()
      ensures GetLifetime() == Int(DefaultSessionMaximumAge)
    {
      props := map[];
      new;
      SetSessionMaximumAge(Int(DefaultSessionMaximumAge));
      SetInactivityTimeout(Int(DefaultInactivityTimeout));
      SetSessionFilePrefix(Str(DefaultSessionFilePrefix));
      SetGarbageCollectionProbability(Float(DefaultGarbageCollectionProbability));
    }

    method SetInactivityTimeout(v: Scalar)
      modifies this
      ensures GetInactivityTimeout() == v
      ensures props == old(props)[InactivityTimeoutKey := v]
    {
      props := props[InactivityTimeoutKey := v];
    }

    function GetInactivityTimeout(): Scalar
      reads this
    {
      Property(InactivityTimeoutKey)
    }

    method SetGarbageCollectionProbability(v: Scalar)
      modifies this
      ensures GetGarbageCollectionProbability() == v
      ensures props == old(props)[GarbageCollectionProbabilityKey := v]
    {
      props := props[GarbageCollectionProbabilityKey := v];
    }

    function GetGarbageCollectionProbability(): Scalar
      reads this
    {
      Property(GarbageCollectionProbabilityKey)
    }

    method SetSessionMaximumAge(v: Scalar)
      modifies this
      ensures GetSessionMaximumAge() == v && GetLifetime() == v
      ensures props == old(props)[SessionMaximumAgeKey := v]
    {
      props := props[SessionMaximumAgeKey := v];
    }

    function GetSessionMaximumAge(): Scalar
      reads this
    {
      Property(SessionMaximumAgeKey)
    }

    /** Deprecated alias: the lifetime is the session maximum age. */
    function GetLifetime(): Scalar
      reads this
    {
      GetSessionMaximumAge()
    }

    method SetSessionFilePrefix(v: Scalar)
      modifies this
      ensures GetSessionFilePrefix() == v
      ensures props == old(props)[SessionFilePrefixKey := v]
    {
      props := props[SessionFilePrefixKey := v];
    }

    function GetSessionFilePrefix(): Scalar
      reads this
    {
      Property(SessionFilePrefixKey)
    }

    method SetSessionSavePath(v: Scalar)
      modifies this
      ensures GetSessionSavePath() == v
      ensures props == old(props)[SessionSavePathKey := v]
    {
      props := props[SessionSavePathKey := v];
    }

    function GetSessionSavePath(): Scalar
      reads this
    {
      Property(SessionSavePathKey)
    }

    /** Overwrites each existing property named in the params; other params are ignored. */
    method MergeWithParams(params: map<string, Scalar>)
      modifies this
      ensures props == Merged(old(props), params)
    {
      var pending := props.Keys;
      while pending != {}
        invariant pending <= old(props).Keys
        invariant props.Keys == old(props).Keys
        invariant forall name :: name in props ==>
                    props[name] == if name !in pending && name in params then params[name] else old(props)[name]
        decreases pending
      {
        var name :| name in pending;
        pending := pending - {name};
        if name in params {
          props := props[name := params[name]];
        }
      }
    }
  }
}
