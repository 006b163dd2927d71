/** Association metadata of the mapping layer: which entity an association
    points at, whether it is bidirectional and owning, which operations cascade
    along it, its inverse side, and its structural classification. */
module Associations {
  import opened Wrappers
  import opened Cascade

  /** The concrete association classes, as a closed set of variants. */
  datatype AssociationKind =
    | OneToMany | ManyToOne | OneToOne | ManyToMany
    | Embedded | EmbeddedCollection | Basic

  /** A fully qualified Java class name; assignability between classes is a
      relation supplied by the caller. */
  type ClassName = string

  /** A property of an entity, as far as inverse-side resolution needs it:
      either an association (of some kind) or any other kind of property. */
  datatype PersistentProperty =
    | AssociationProperty(name: string, kind: AssociationKind)
    | NonAssociation(name: string)

  /** Entity metadata: its name, its Java class and its properties by name. */
  datatype PersistentEntity = PersistentEntity(
    name: string,
    javaClass: ClassName,
    properties: map<string, PersistentProperty>)
  {
    /** `getPropertyByName`: a missing or null name finds nothing. */
    function PropertyByName(propertyName: Option<string>): (r: Option<PersistentProperty>)
      ensures r.Some? <==> propertyName.Some? && propertyName.value in properties
      ensures r.Some? ==> r.value == properties[propertyName.value]
    {
      match propertyName
      case None => None
      case Some(n) => if n in properties then Some(properties[n]) else None
    }

    /** Every property is filed under its own name. */
    ghost predicate WellFormed()
    {
      forall n :: n in properties ==> properties[n].name == n
    }
  }

  /** What `getInverseSide` can fail with. */
  datatype MappingError =
      /** The associated entity was never set: the lookup dereferences null. */
    | NullAssociatedEntity
      /** `IllegalMappingException`: the inverse side is not an association. */
    | IllegalMapping(inverseEntity: string, inverseProperty: string, ownerEntity: string, property: string)

  // ---------------------------------------------------------------------------
  // Cascade resolution
  // ---------------------------------------------------------------------------

  /** The default of the owning side. */
  const DefaultOwnerCascade: set<CascadeType> := {ALL}

  /** The default of any other side, bar the bidirectional many-to-one. */
  const DefaultChildCascade: set<CascadeType> := {PERSIST}

  /** The cascade set used when no `cascade` setting is configured. */
  function DefaultCascade(owningSide: bool, kind: AssociationKind, bidirectional: bool): set<CascadeType>
  {
    if owningSide then DefaultOwnerCascade
    else if kind == ManyToOne && bidirectional then {}
    else DefaultChildCascade
  }

  /** The cascade set an association resolves to: the parse of its `cascade`
      setting when there is one, the default otherwise. */
  function ResolveCascade(cascade: Option<string>, owningSide: bool, kind: AssociationKind,
                          bidirectional: bool): set<CascadeType>
  {
    match cascade
    case Some(spec) => Parse(spec)
    case None => DefaultCascade(owningSide, kind, bidirectional)
  }

  /** Without a `cascade` setting: the owning side cascades every operation, a
      bidirectional many-to-one that does not own the relation cascades none,
      and every other side cascades exactly PERSIST. */
  lemma DefaultCascadeBehaviour(owningSide: bool, kind: AssociationKind, bidirectional: bool, op: CascadeType)
    ensures var ops := ResolveCascade(None, owningSide, kind, bidirectional);
      (CascadesOne(ops, Some(op)) <==> owningSide || (!(kind == ManyToOne && bidirectional) && op == PERSIST))
    ensures var ops := ResolveCascade(None, owningSide, kind, bidirectional);
      !owningSide && kind == ManyToOne && bidirectional ==> ops == {} && !AnyCascades(ops, None)
  {
  }

  /** A configured `cascade` setting decides alone: the owning-side flag, the
      kind and the linkage play no part, and DETACH is never in the set. */
  lemma ConfiguredCascadeOverridesDefault(spec: string, owningSide: bool, kind: AssociationKind,
                                          bidirectional: bool)
    ensures ResolveCascade(Some(spec), owningSide, kind, bidirectional) == ResolveCascade(Some(spec), false, OneToMany, false)
    ensures DETACH !in ResolveCascade(Some(spec), owningSide, kind, bidirectional)
  {
    if DETACH in Parse(spec) {
      ParseMembers(spec, DETACH);
    }
  }

  /** Two worked examples: "ALL, Merge , remove" resolves
      to {ALL, MERGE, REMOVE} and "all,bogus" to {ALL}, whatever the defaults
      would have been. */
  lemma ConfiguredCascadeExamples(owningSide: bool, kind: AssociationKind, bidirectional: bool)
    ensures ResolveCascade(Some("ALL, Merge , remove"), owningSide, kind, bidirectional)
      == {ALL, MERGE, REMOVE}
    ensures ResolveCascade(Some("all,bogus"), owningSide, kind, bidirectional) == {ALL}
  {
    ParseMixedCase();
    ParseDropsUnknown();
  }

  // ---------------------------------------------------------------------------
  // The association object
  // ---------------------------------------------------------------------------

  class Association {
    /** The entity this property belongs to. */
    const owner: PersistentEntity
    /** The property's name. */
    const name: string
    /** Which association class this is. */
    const kind: AssociationKind
    /** The `cascade` setting of the mapped form; `None` when none is configured.
        The mapped form may still change after construction; it is read only
        when the cascade set is first built. */
    var mappedCascade: Option<string>

    var associatedEntity: Option<PersistentEntity>
    var referencedPropertyName: Option<string>
    var owningSide: bool
    /** The resolved cascade set, filled on first query and never recomputed. */
    var cascadeOperations: Option<set<CascadeType>>

    constructor (owner: PersistentEntity, name: string, kind: AssociationKind, mappedCascade: Option<string>)
      ensures this.owner == owner && this.name == name && this.kind == kind
      ensures this.mappedCascade == mappedCascade
      ensures associatedEntity == None && referencedPropertyName == None
      ensures !owningSide && cascadeOperations == None
    {
      this.owner := owner;
      this.name := name;
      this.kind := kind;
      this.mappedCascade := mappedCascade;
      associatedEntity := None;
      referencedPropertyName := None;
      owningSide := false;
      cascadeOperations := None;
    }

    /** Both the associated entity and the name of the property pointing back are set. */
    function IsBidirectional(): (r: bool)
      reads this`associatedEntity, this`referencedPropertyName
      ensures r <==> associatedEntity.Some? && referencedPropertyName.Some?
      ensures r ==> InverseSide() != Failure(NullAssociatedEntity)
    {
      associatedEntity.Some? && referencedPropertyName.Some?
    }

    /** The cascade set that would be computed from the current state. */
    function ResolvedCascade(): set<CascadeType>
      reads this`mappedCascade, this`owningSide, this`associatedEntity, this`referencedPropertyName
    {
      ResolveCascade(mappedCascade, owningSide, kind, IsBidirectional())
    }

    /** Computes the cascade set and stores it. */
    method BuildCascadeOperations()
      modifies this`cascadeOperations
      ensures cascadeOperations == Some(ResolvedCascade())
    {
      match mappedCascade {
        case Some(cascade) =>
          var specifiedOperations := Split(Lower(cascade));
          ghost var keys := Keys(specifiedOperations);
          var operations: set<CascadeType> := {};
          var i := 0;
          while i < |specifiedOperations|
            invariant 0 <= i <= |specifiedOperations|
            invariant operations == KindsOf(CascadeTypeConversions, keys[..i])
          {
            var key := Trim(specifiedOperations[i]);
            assert keys[..i + 1][..i] == keys[..i] && keys[i] == key;
            var conversion := Conversion(key);
            if conversion.Some? {
              operations := operations + {conversion.value};
            }
            i := i + 1;
          }
          assert keys[..i] == keys;
          cascadeOperations := Some(operations);
        case None =>
          if owningSide {
            cascadeOperations := Some(DefaultOwnerCascade);
          } else if kind == ManyToOne && IsBidirectional() {
            cascadeOperations := Some({});
          } else {
            cascadeOperations := Some(DefaultChildCascade);
          }
      }
    }

    /** The cascade set: computed on the first call, the stored set on every later one. */
    method GetCascadeOperations() returns (ops: set<CascadeType>)
      modifies this`cascadeOperations
      ensures old(cascadeOperations).Some? ==> ops == old(cascadeOperations).value
      ensures old(cascadeOperations).None? ==> ops == ResolvedCascade()
      ensures cascadeOperations == Some(ops)
    {
      if cascadeOperations.None? {
        BuildCascadeOperations();
      }
      ops := cascadeOperations.value;
    }

    /** Whether the operation cascades: never for a null operation, otherwise
      when the cascade set holds ALL or the operation. */
    method DoesCascade(op: Option<CascadeType>) returns (b: bool)
      modifies this`cascadeOperations
      ensures old(cascadeOperations).Some? ==> cascadeOperations == old(cascadeOperations)
      ensures old(cascadeOperations).None? ==> cascadeOperations == Some(ResolvedCascade())
      ensures cascadeOperations.Some?
      ensures b == CascadesOne(cascadeOperations.value, op)
    {
      var cascades := GetCascadeOperations();
      b := op.Some? && (ALL in cascades || op.value in cascades);
    }

    /** Whether any of the operations cascades: always when the cascade set
      holds ALL (even for a null or empty array), otherwise when some
      operation of the array is in the set. */
    method DoesCascadeAny(ops: Option<seq<Option<CascadeType>>>) returns (b: bool)
      modifies this`cascadeOperations
      ensures old(cascadeOperations).Some? ==> cascadeOperations == old(cascadeOperations)
      ensures old(cascadeOperations).None? ==> cascadeOperations == Some(ResolvedCascade())
      ensures cascadeOperations.Some?
      ensures b == AnyCascades(cascadeOperations.value, ops)
    {
      var cascades := GetCascadeOperations();
      if ALL in cascades {
        return true;
      } else if ops.Some? {
        var operations := ops.value;
        var i := 0;
        while i < |operations|
          invariant 0 <= i <= |operations|
          invariant forall j :: 0 <= j < i ==> !(operations[j].Some? && operations[j].value in cascades)
        {
          if operations[i].Some? && operations[i].value in cascades {
            return true;
          }
          i := i + 1;
        }
      }
      return false;
    }

    /** The association on the associated entity that points back: nothing when
      the entity has no property of that name, that property when it is an
      association, and a mapping error when it is any other kind of property. */
    function InverseSide(): (r: Result<Option<PersistentProperty>, MappingError>)
      reads this`associatedEntity, this`referencedPropertyName
      ensures r == Failure(NullAssociatedEntity) <==> associatedEntity.None?
      ensures associatedEntity.Some? ==>
        var found := associatedEntity.value.PropertyByName(referencedPropertyName);
        && (r == Success(None) <==> found.None?)
        && (r.Success? && r.value.Some? <==> found.Some? && found.value.AssociationProperty?)
        && (r.Success? && r.value.Some? ==> r.value.value == found.value)
        && (r.Failure? <==> found.Some? && found.value.NonAssociation?)
        && (r.Failure? ==> r.error == IllegalMapping(associatedEntity.value.name, found.value.name, owner.name, name))
    {
      match associatedEntity
      case None => Failure(NullAssociatedEntity)
      case Some(entity) =>
        match entity.PropertyByName(referencedPropertyName)
        case None => Success(None)
        case Some(property) =>
          if property.AssociationProperty? then Success(Some(property))
          else Failure(IllegalMapping(entity.name, property.name, owner.name, name))
    }

    /** Embedded and EmbeddedCollection associations are embedded. */
    function IsEmbedded(): (r: bool)
      ensures r <==> kind in {Embedded, EmbeddedCollection}
    {
      match kind
      case Embedded => true
      case EmbeddedCollection => true
      case _ => false
    }

    /** Basic associations (collections of plain values) are basic. */
    function IsBasic(): (r: bool)
      ensures r <==> kind == Basic
    {
      match kind
      case Basic => true
      case _ => false
    }

    /** An association is circular when it points at an entity whose class is
      the owner's class or one of its superclasses, as decided by the
      `isAssignableFrom` relation on classes. */
    function IsCircular(isAssignableFrom: (ClassName, ClassName) -> bool): (r: bool)
      reads this`associatedEntity
      ensures associatedEntity.None? ==> !r
      ensures associatedEntity.Some? ==> (r <==> isAssignableFrom(associatedEntity.value.javaClass, owner.javaClass))
    {
      match associatedEntity
      case None => false
      case Some(entity) => isAssignableFrom(entity.javaClass, owner.javaClass)
    }

    method SetOwningSide(owningSide: bool)
      modifies this`owningSide
      ensures this.owningSide == owningSide
      ensures mappedCascade == old(mappedCascade)
      ensures associatedEntity == old(associatedEntity)
      ensures referencedPropertyName == old(referencedPropertyName)
      ensures cascadeOperations == old(cascadeOperations)
    {
      this.owningSide := owningSide;
    }

    method SetAssociatedEntity(associatedEntity: Option<PersistentEntity>)
      modifies this`associatedEntity
      ensures this.associatedEntity == associatedEntity
      ensures mappedCascade == old(mappedCascade)
      ensures owningSide == old(owningSide)
      ensures referencedPropertyName == old(referencedPropertyName)
      ensures cascadeOperations == old(cascadeOperations)
      ensures IsBidirectional() <==> associatedEntity.Some? && referencedPropertyName.Some?
    {
      this.associatedEntity := associatedEntity;
    }

    method SetReferencedPropertyName(referencedPropertyName: Option<string>)
      modifies this`referencedPropertyName
      ensures this.referencedPropertyName == referencedPropertyName
      ensures mappedCascade == old(mappedCascade)
      ensures owningSide == old(owningSide)
      ensures associatedEntity == old(associatedEntity)
      ensures cascadeOperations == old(cascadeOperations)
      ensures IsBidirectional() <==> associatedEntity.Some? && referencedPropertyName.Some?
    {
      this.referencedPropertyName := referencedPropertyName;
    }

    /** Configures the mapped form's `cascade` setting. A cascade set already
        stored is kept: the setting is read only by the first query. */
    method SetMappedCascade(cascade: Option<string>)
      modifies this`mappedCascade
      ensures mappedCascade == cascade
      ensures owningSide == old(owningSide)
      ensures associatedEntity == old(associatedEntity)
      ensures referencedPropertyName == old(referencedPropertyName)
      ensures cascadeOperations == old(cascadeOperations)
    {
      mappedCascade := cascade;
    }
  }

  // ---------------------------------------------------------------------------
  // Properties relating several operations
  // ---------------------------------------------------------------------------

  /** The cascade set is computed once: once queried, it survives any later
      change of the `cascade` setting, the owning-side flag or the linkage, and
      later queries give it back unchanged. */
  method CascadeIsMemoised(a: Association, cascade: Option<string>, owning: bool,
                           entity: Option<PersistentEntity>, referenced: Option<string>)
    returns (first: set<CascadeType>, second: set<CascadeType>)
    modifies a
    ensures first == second
    ensures a.cascadeOperations == Some(first)
    ensures old(a.cascadeOperations).None? ==> first == old(a.ResolvedCascade())
  {
    first := a.GetCascadeOperations();
    a.SetMappedCascade(cascade);
    a.SetOwningSide(owning);
    a.SetAssociatedEntity(entity);
    a.SetReferencedPropertyName(referenced);
    second := a.GetCascadeOperations();
  }

  /** The inverse side of a bidirectional association is never the null
      dereference; what it finds is an association filed under the referenced
      name. */
  lemma InverseSideOfBidirectional(a: Association)
    requires a.IsBidirectional()
    requires a.associatedEntity.value.WellFormed()
    ensures a.InverseSide() != Failure(NullAssociatedEntity)
    ensures a.InverseSide().Success? && a.InverseSide().value.Some? ==>
      var p := a.InverseSide().value.value;
      p.AssociationProperty? && p.name == a.referencedPropertyName.value
  {
  }

  /** An embedded association is neither basic nor many-to-one, so without a
      `cascade` setting a non-owning embedded association cascades PERSIST. */
  lemma EmbeddedCascadesPersistByDefault(a: Association, bidirectional: bool)
    requires a.IsEmbedded()
    ensures !a.IsBasic()
    ensures ResolveCascade(None, false, a.kind, bidirectional) == {PERSIST}
  {
  }

  /** A self-referential association is circular whenever the class relation is
      reflexive; an association without an associated entity never is. */
  lemma SelfReferenceIsCircular(a: Association, isAssignableFrom: (ClassName, ClassName) -> bool)
    requires a.associatedEntity.Some? && a.associatedEntity.value.javaClass == a.owner.javaClass
    requires isAssignableFrom(a.owner.javaClass, a.owner.javaClass)
    ensures a.IsCircular(isAssignableFrom)
  {
  }

  /** Author -> books: owning side, no `cascade` setting; PERSIST and REMOVE both
      cascade, through the ALL default. Book -> author: bidirectional
      many-to-one on the non-owning side; nothing cascades. */
  lemma AuthorBookScenario(kindOfBooks: AssociationKind, op: CascadeType)
    ensures CascadesOne(ResolveCascade(None, true, kindOfBooks, true), Some(PERSIST))
    ensures CascadesOne(ResolveCascade(None, true, kindOfBooks, true), Some(REMOVE))
    ensures !CascadesOne(ResolveCascade(None, false, ManyToOne, true), Some(op))
    ensures !CascadesOne(ResolveCascade(None, false, ManyToOne, true), Some(ALL))
  {
  }
}
