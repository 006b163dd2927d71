# Association metadata, modelled in Dafny

This project models the `Association` class of the GORM datastore mapping layer
(`grails-datastore-core`). That class holds what the mapping layer knows about
one association between two persistent entities:

- which entity the association points at (`associatedEntity`);
- the name of the property on that entity that points back (`referencedPropertyName`);
- whether this side owns the relation (`owningSide`);
- which persistence operations cascade along it (`cascadeOperations`). This set is
  resolved once, on first query, from the mapping's `cascade` setting or from a
  default.

The model has three modules:

- `Wrappers` (`wrappers.dfy`): `Option` stands for a Java `null`, `Result` for an
  exception thrown to the caller.
- `Cascade` (`cascade.dfy`):
  - the `javax.persistence.CascadeType` constants;
  - the pieces of `String` handling the parser relies on: ASCII lower-casing,
    `trim` (every character at or below U+0020 is blank) and splitting on commas;
  - the keyword table `CascadeTypeConversions`, kept in the order of its entries;
  - `Parse`, which turns a `cascade` string into a set of kinds;
  - the two cascade queries, `CascadesOne` (one operation) and `AnyCascades`
    (variadic, match any).
- `Associations` (`association.dfy`):
  - the seven association kinds, as one datatype;
  - entity and property metadata, as values;
  - the default cascade decision tree (`DefaultCascade`, `ResolveCascade`);
  - the `Association` class. Its fields are the Java fields. Its methods change
    them in place: the setters, and the lazy fill of `cascadeOperations`
    by `GetCascadeOperations`, `BuildCascadeOperations` and both `DoesCascade`
    methods.

`BuildCascadeOperations` keeps the source's loop over the comma-separated
tokens. The loop is proved against `Parse`, and the lemmas of `Cascade` say what
`Parse` computes. Examples: `"ALL, Merge , remove"` gives {ALL, MERGE, REMOVE},
and `"all,bogus"` gives {ALL}.

Some behaviours come from the code itself and are kept in the model:

- `getInverseSide` does not check `associatedEntity`. Called before the
  associated entity is set, it dereferences null. The model returns
  `Failure(NullAssociatedEntity)` there.
- The single-operation `doesCascade(null)` answers false even when the set holds
  ALL. The variadic `doesCascade` answers true for a null or empty array whenever
  the set holds ALL. `SingleAgreesWithVariadic` states this difference.
- `CascadeType` has six constants, DETACH included. The keyword table never
  yields DETACH, but DETACH can be queried, and the ALL default makes it cascade.

## Model

| member | source | states |
|---|---|---|
| Cascade.LowerChar | grails-datastore-core/src/main/groovy/org/grails/datastore/mapping/model/types/Association.java:69 | lower-casing turns each ASCII upper-case letter into the same letter in lower case, leaves no upper-case letter, keeps every other character, and maps a comma to a comma and nothing else to one |
| Cascade.TrimShape | grails-datastore-core/src/main/groovy/org/grails/datastore/mapping/model/types/Association.java:72 | `trim` cuts a string into blank padding around a middle that starts and ends with a non-blank, and returns that middle |
| Cascade.TrimPadded | grails-datastore-core/src/main/groovy/org/grails/datastore/mapping/model/types/Association.java:72 | trimming a trimmed word padded with blanks on both sides gives back exactly the word |
| Cascade.Split | grails-datastore-core/src/main/groovy/org/grails/datastore/mapping/model/types/Association.java:69 | splitting on commas always yields at least one token |
| Cascade.SplitJoin | grails-datastore-core/src/main/groovy/org/grails/datastore/mapping/model/types/Association.java:69 | no token holds a comma, and joining the tokens with commas gives back the string |
| Cascade.JoinSplit | grails-datastore-core/src/main/groovy/org/grails/datastore/mapping/model/types/Association.java:69 | splitting comma-free tokens joined with commas gives back the tokens |
| Cascade.SplitAppend | grails-datastore-core/src/main/groovy/org/grails/datastore/mapping/model/types/Association.java:69 | the tokens of `a + "," + b` are the tokens of `a` followed by those of `b` |
| Cascade.Lookup | grails-datastore-core/src/main/groovy/org/grails/datastore/mapping/model/types/Association.java:73-74 | a lookup finds a kind only when the table has an entry pairing the key with that kind, and finds nothing only when no entry has the key |
| Cascade.Conversion | grails-datastore-core/src/main/groovy/org/grails/datastore/mapping/model/types/Association.java:44-56 | the keyword table never yields DETACH |
| Cascade.ConversionSynonyms | grails-datastore-core/src/main/groovy/org/grails/datastore/mapping/model/types/Association.java:47-53 | `save-update` and `persist` both map to PERSIST; `delete` and `remove` both map to REMOVE |
| Cascade.ConversionUnsupported | grails-datastore-core/src/main/groovy/org/grails/datastore/mapping/model/types/Association.java:54-55 | `all-delete-orphan`, `lock`, `replicate`, `evict` and `delete-orphan` are not in the table |
| Cascade.KeywordShape | grails-datastore-core/src/main/groovy/org/grails/datastore/mapping/model/types/Association.java:47-53 | every keyword of the table is already trimmed and holds no comma, so every keyword can be reached from a `cascade` string |
| Cascade.KindsOfMembers | grails-datastore-core/src/main/groovy/org/grails/datastore/mapping/model/types/Association.java:71-76 | a kind is collected exactly when some key maps to it in the table |
| Cascade.KindsOfAppend | grails-datastore-core/src/main/groovy/org/grails/datastore/mapping/model/types/Association.java:71-76 | the kinds collected from two runs of keys are the union of the kinds of each, so token order and repetition do not matter |
| Cascade.ParseMembers | grails-datastore-core/src/main/groovy/org/grails/datastore/mapping/model/types/Association.java:68-77 | a kind is in the parse of a `cascade` string exactly when it is the table image of some trimmed token of the lower-cased, comma-split string |
| Cascade.ParseAppend | grails-datastore-core/src/main/groovy/org/grails/datastore/mapping/model/types/Association.java:69-76 | the parse of `a + "," + b` is the union of the parses of `a` and `b` |
| Cascade.ParseIgnoresCase | grails-datastore-core/src/main/groovy/org/grails/datastore/mapping/model/types/Association.java:69 | lower-casing the setting first does not change the parse |
| Cascade.ParseCaseInsensitive | grails-datastore-core/src/main/groovy/org/grails/datastore/mapping/model/types/Association.java:69-76 | two settings that differ only in the case of their ASCII letters parse to the same set |
| Cascade.ParseSingle | grails-datastore-core/src/main/groovy/org/grails/datastore/mapping/model/types/Association.java:69-76 | a comma-free setting parses to the table image of its trimmed, lower-cased form, or to the empty set |
| Cascade.ParseKeyword | grails-datastore-core/src/main/groovy/org/grails/datastore/mapping/model/types/Association.java:69-76 | one keyword, in any case and padded with blanks, parses to exactly its kind |
| Cascade.ParseIgnoresUnknown | grails-datastore-core/src/main/groovy/org/grails/datastore/mapping/model/types/Association.java:73-75 | appending a token that is not a keyword leaves the parse unchanged |
| Cascade.ParseMixedCase | grails-datastore-core/src/main/groovy/org/grails/datastore/mapping/model/types/Association.java:68-77 | `"ALL, Merge , remove"` parses to {ALL, MERGE, REMOVE} |
| Cascade.ParseDropsUnknown | grails-datastore-core/src/main/groovy/org/grails/datastore/mapping/model/types/Association.java:68-77 | `"all,bogus"` parses to {ALL} |
| Cascade.AllCascadesEverything | grails-datastore-core/src/main/groovy/org/grails/datastore/mapping/model/types/Association.java:125-149 | with ALL in the set, every non-null operation cascades in the single query, and the variadic query answers true for every argument, even a null or empty array |
| Cascade.SingleAgreesWithVariadic | grails-datastore-core/src/main/groovy/org/grails/datastore/mapping/model/types/Association.java:125-149 | for one non-null operation both queries agree; a null operation never cascades in the single query, while a one-element null array cascades in the variadic query exactly when ALL is in the set |
| Cascade.VariadicIsAnySingle | grails-datastore-core/src/main/groovy/org/grails/datastore/mapping/model/types/Association.java:136-149 | without ALL in the set, the variadic query holds exactly when some element of the array cascades on its own |
| Associations.DefaultCascadeBehaviour | grails-datastore-core/src/main/groovy/org/grails/datastore/mapping/model/types/Association.java:78-90 | with no `cascade` setting: the owning side cascades every operation; a non-owning bidirectional many-to-one gets the empty set and cascades nothing; every other side cascades exactly PERSIST |
| Associations.ConfiguredCascadeOverridesDefault | grails-datastore-core/src/main/groovy/org/grails/datastore/mapping/model/types/Association.java:66-77 | once a `cascade` setting exists, the owning-side flag, the kind and the linkage play no part, and DETACH is never in the result |
| Associations.ConfiguredCascadeExamples | grails-datastore-core/src/main/groovy/org/grails/datastore/mapping/model/types/Association.java:66-77 | the settings `"ALL, Merge , remove"` and `"all,bogus"` resolve to {ALL, MERGE, REMOVE} and {ALL} whatever the defaults would be |
| Associations.AuthorBookScenario | grails-datastore-core/src/main/groovy/org/grails/datastore/mapping/model/types/Association.java:78-90 | an owning collection with no setting cascades PERSIST and REMOVE through ALL; a non-owning bidirectional many-to-one with no setting cascades nothing, ALL included |
| Associations.Association.IsBidirectional | grails-datastore-core/src/main/groovy/org/grails/datastore/mapping/model/types/Association.java:101-103 | holds exactly when the associated entity and the referenced name are both present, and then the inverse-side lookup never dereferences null |
| Associations.Association.constructor | grails-datastore-core/src/main/groovy/org/grails/datastore/mapping/model/types/Association.java:39-42 | a new association has no associated entity, no referenced name, is not the owning side and has no cascade set yet |
| Associations.Association.BuildCascadeOperations | grails-datastore-core/src/main/groovy/org/grails/datastore/mapping/model/types/Association.java:66-92 | the token loop stores exactly the parse of the setting; with no setting, it stores the default for the current owning-side flag, kind and bidirectionality |
| Associations.Association.GetCascadeOperations | grails-datastore-core/src/main/groovy/org/grails/datastore/mapping/model/types/Association.java:165-170 | the first call computes the set from the current state and stores it; every later call returns the stored set and changes nothing |
| Associations.CascadeIsMemoised | grails-datastore-core/src/main/groovy/org/grails/datastore/mapping/model/types/Association.java:165-170 | after a first query, changing the `cascade` setting, the owning side, the associated entity and the referenced name leaves the next query's answer the same |
| Associations.Association.DoesCascade | grails-datastore-core/src/main/groovy/org/grails/datastore/mapping/model/types/Association.java:125-128 | answers the single-operation query over the resolved set: false for null, otherwise whether the set holds ALL or the operation; it resolves the set first if needed |
| Associations.Association.DoesCascadeAny | grails-datastore-core/src/main/groovy/org/grails/datastore/mapping/model/types/Association.java:136-149 | the early-return loop answers the variadic query over the resolved set: true with ALL, otherwise whether some array element is in the set |
| Associations.PersistentEntity.PropertyByName | grails-datastore-core/src/main/groovy/org/grails/datastore/mapping/model/types/Association.java:109 | a property is found exactly when a name is given and the entity has a property under it, and then it is that property |
| Associations.Association.InverseSide | grails-datastore-core/src/main/groovy/org/grails/datastore/mapping/model/types/Association.java:108-117 | with no associated entity, fails on the null dereference; otherwise it returns nothing when no property of that name exists, returns the property when it is an association, and fails with an illegal-mapping error naming the inverse entity and property and the owner and property when it is anything else |
| Associations.InverseSideOfBidirectional | grails-datastore-core/src/main/groovy/org/grails/datastore/mapping/model/types/Association.java:101-117 | on a bidirectional association the lookup never hits the null dereference, and an inverse side it finds is an association filed under the referenced name |
| Associations.Association.IsEmbedded | grails-datastore-core/src/main/groovy/org/grails/datastore/mapping/model/types/Association.java:154-156 | holds exactly for the Embedded and EmbeddedCollection kinds |
| Associations.Association.IsBasic | grails-datastore-core/src/main/groovy/org/grails/datastore/mapping/model/types/Association.java:161-163 | holds exactly for the Basic kind |
| Associations.EmbeddedCascadesPersistByDefault | grails-datastore-core/src/main/groovy/org/grails/datastore/mapping/model/types/Association.java:154-163 | an embedded association is not basic, and without a setting its non-owning default is {PERSIST} whatever its bidirectionality |
| Associations.Association.IsCircular | grails-datastore-core/src/main/groovy/org/grails/datastore/mapping/model/types/Association.java:217-225 | false without an associated entity; otherwise it holds exactly when the associated entity's class is assignable from the owner's class |
| Associations.SelfReferenceIsCircular | grails-datastore-core/src/main/groovy/org/grails/datastore/mapping/model/types/Association.java:217-225 | an association that points back at its owner's own class is circular whenever assignability is reflexive on that class |
| Associations.Association.SetOwningSide | grails-datastore-core/src/main/groovy/org/grails/datastore/mapping/model/types/Association.java:182-184 | sets the owning-side flag and changes nothing else, in particular not a cascade set already stored |
| Associations.Association.SetAssociatedEntity | grails-datastore-core/src/main/groovy/org/grails/datastore/mapping/model/types/Association.java:186-188 | sets the associated entity and changes nothing else; afterwards the association is bidirectional exactly when the new entity and the referenced name are both present |
| Associations.Association.SetMappedCascade | grails-datastore-core/src/main/groovy/org/grails/datastore/mapping/model/types/Association.java:67 | replaces the `cascade` setting of the mapped form and changes nothing else, in particular not a cascade set already stored, since the setting is read only when the set is first built |
| Associations.Association.SetReferencedPropertyName | grails-datastore-core/src/main/groovy/org/grails/datastore/mapping/model/types/Association.java:194-196 | sets the referenced name and changes nothing else; afterwards the association is bidirectional exactly when the associated entity and the new name are both present |

## Left out

- `getFetchStrategy` only delegates to the mapped-form configuration, which is
  not part of this model.
- `isList` tests `List.class.isAssignableFrom(getType())` by reflection. Java
  classes are not modelled, so `isList` is left out.
- `isCircular` keeps its null-entity guard. Its `Class.isAssignableFrom` test
  becomes a relation the caller passes in.
- `toString` only concatenates strings for diagnostics. It is left out.
- The constructors and the `AbstractPersistentProperty`, `MappingContext` and
  `PropertyDescriptor` machinery are not part of this model. The owner and the
  associated entity are values: a name, a class name and a map of properties.
  The model's constructor takes the owner, the name, the kind and the mapped
  `cascade` setting, and leaves the other fields at their Java defaults.
- The mapping and its mapped form are not modelled as objects. Their `cascade`
  setting is the field `mappedCascade`, and `SetMappedCascade` stands for
  configuring the mapped form after construction. As in the source, the setting
  is read only when the cascade set is first built.
- The getters `isOwningSide`, `getAssociatedEntity` and
  `getReferencedPropertyName` are not separate members, because they only read
  a field. The Dafny fields can be read directly.
- `getPropertyByName` belongs to the entity registry, which is not part of this
  model. It is a map lookup in the model, and a null name finds nothing.
- Associations.InverseSide: the `IllegalMappingException` message is not built
  as text. The error carries the four names the message is made of. The null
  dereference raises a `NullPointerException` with no message of the source's
  own, so `NullAssociatedEntity` carries nothing.
- Cascade.LowerChar: lower-cases ASCII letters only, where Java uses Unicode
  case mapping. Outside ASCII, only the Kelvin sign lower-cases to an ASCII
  letter (`k`), and no keyword contains `k`. The dotted capital I becomes `i`
  followed by U+0307, the combining dot, which is not blank and occurs in no
  keyword, so that token matches nothing in Java, as the unchanged character
  matches nothing in the model. Every other non-ASCII character stays non-ASCII
  in both, and no keyword holds one. So the parsed set comes out the same.
- Cascade.LowerChar: lower-cases as the root locale does. `toLowerCase()` uses
  the JVM's default locale. Under a Turkish or Azerbaijani locale, the ASCII `I`
  becomes the dotless `ı` (U+0131). Java then drops an upper-case `PERSIST`, where
  `Parse` gives {PERSIST}. The model does not capture that locale dependence.
- Cascade.Split: `String.split` drops trailing empty tokens, and the model keeps
  them. An empty or blank token trims to the empty string, which is not a
  keyword, so the parsed set is the same.
- `Collections.unmodifiableSet` wrappers and thread-safety of the lazy
  `cascadeOperations` field are out of scope. A Dafny `set` is immutable, and
  the model is single-threaded.
