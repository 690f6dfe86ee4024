/**
 * The entity registry: the seven model classes (`FileStorage.classes`) and the
 * per-class attribute coercions (`FileStorage.attributes`), with what each
 * coercion does to a value.
 */
module Registry {
  import opened Wrappers
  import opened Dicts
  import opened PyValues

  datatype ClassName = BaseModel | User | State | City | Amenity | Place | Review

  /** `type(obj).__name__` */
  function Name(c: ClassName): string
  {
    match c
    case BaseModel => "BaseModel"
    case User => "User"
    case State => "State"
    case City => "City"
    case Amenity => "Amenity"
    case Place => "Place"
    case Review => "Review"
  }

  /** `FileStorage.classes()`: class name to class. */
  const Classes: Dict<ClassName> :=
    [("BaseModel", BaseModel), ("User", User), ("State", State), ("City", City),
     ("Amenity", Amenity), ("Place", Place), ("Review", Review)]

  /** The conversion a registry entry names: `str`, `int`, `float`, `datetime.datetime`, `list`. */
  datatype Coercion = ToStr | ToInt | ToFloat | ToDateTime | ToList

  /** `storage.attributes()[Name(c)]`: the coercions declared for class `c`. */
  function Coercions(c: ClassName): Dict<Coercion>
  {
    match c
    case BaseModel => [("id", ToStr), ("created_at", ToDateTime), ("updated_at", ToDateTime)]
    case User => [("email", ToStr), ("password", ToStr), ("first_name", ToStr), ("last_name", ToStr)]
    case State => [("name", ToStr)]
    case City => [("state_id", ToStr), ("name", ToStr)]
    case Amenity => [("name", ToStr)]
    case Place =>
      [("city_id", ToStr), ("user_id", ToStr), ("name", ToStr), ("description", ToStr),
       ("number_rooms", ToInt), ("number_bathrooms", ToInt), ("max_guest", ToInt),
       ("price_by_night", ToInt), ("latitude", ToFloat), ("longitude", ToFloat),
       ("amenity_ids", ToList)]
    case Review => [("place_id", ToStr), ("user_id", ToStr), ("text", ToStr)]
  }

  /** `FileStorage.attributes()`: class name to attribute name to coercion. */
  const Attributes: Dict<Dict<Coercion>> :=
    [("BaseModel", Coercions(BaseModel)), ("User", Coercions(User)), ("State", Coercions(State)),
     ("City", Coercions(City)), ("Amenity", Coercions(Amenity)), ("Place", Coercions(Place)),
     ("Review", Coercions(Review))]

  /** `storage.classes()[name]`, `None` where that raises `KeyError`. */
  function ClassNamed(name: string): (r: Option<ClassName>)
    ensures r.Some? ==> Name(r.value) == name
    ensures forall c :: Name(c) == name ==> r == Some(c)
  {
    if name == "BaseModel" then Some(BaseModel)
    else if name == "User" then Some(User)
    else if name == "State" then Some(State)
    else if name == "City" then Some(City)
    else if name == "Amenity" then Some(Amenity)
    else if name == "Place" then Some(Place)
    else if name == "Review" then Some(Review)
    else None
  }

  /** `classes()` and `attributes()` are keyed by the same seven names, none of which holds a
      dot or a space; looking a name up in `classes()` is `ClassNamed`, and in `attributes()`
      gives the class's coercions. */
  lemma RegistryKeys()
    ensures Keys(Classes) == Keys(Attributes)
    ensures Keys(Classes) == ["BaseModel", "User", "State", "City", "Amenity", "Place", "Review"]
    ensures forall c :: Get(Attributes, Name(c)) == Some(Coercions(c))
    ensures forall c :: '.' !in Name(c) && ' ' !in Name(c) && ']' !in Name(c)
    ensures forall w :: Get(Classes, w) == ClassNamed(w)
  {
    forall c ensures Get(Attributes, Name(c)) == Some(Coercions(c)) {
      AttributesOf(c);
    }
    forall w ensures Get(Classes, w) == ClassNamed(w) {
      ClassesOf(w);
    }
    forall c ensures '.' !in Name(c) && ' ' !in Name(c) && ']' !in Name(c) {
      NamePlain(c);
    }
    TableKeys();
  }

  /** Both tables list the seven names in the same order. */
  lemma TableKeys()
    ensures Keys(Classes) == ["BaseModel", "User", "State", "City", "Amenity", "Place", "Review"]
    ensures Keys(Attributes) == Keys(Classes)
  {
    assert Keys(Classes) == Keys(Attributes) by {
      forall i | 0 <= i < |Classes| ensures Keys(Classes)[i] == Keys(Attributes)[i] { }
    }
  }

  /** A class name holds no dot, space or bracket. */
  lemma NamePlain(c: ClassName)
    ensures '.' !in Name(c) && ' ' !in Name(c) && ']' !in Name(c)
  {
  }

  /** `attributes()[Name(c)]` is the coercion table of `c`. */
  lemma AttributesOf(c: ClassName)
    ensures Get(Attributes, Name(c)) == Some(Coercions(c))
  {
    FindAt(Attributes, Name(c), IndexOfClass(c));
  }

  /** `classes()[w]` is `ClassNamed(w)`. */
  lemma ClassesOf(w: string)
    ensures Get(Classes, w) == ClassNamed(w)
  {
    match ClassNamed(w)
    case Some(c) => FindAt(Classes, w, IndexOfClass(c));
    case None =>
  }

  /** Where class `c` stands in both tables. */
  function IndexOfClass(c: ClassName): nat
  {
    match c
    case BaseModel => 0
    case User => 1
    case State => 2
    case City => 3
    case Amenity => 4
    case Place => 5
    case Review => 6
  }

  /** The conversions Python performs that the model does not compute: `int(v)`,
      `float(v)` (a `float` kept as its `repr`) and `json.loads(text)` of an object literal,
      `None` where they raise. */
  datatype Runtime = Runtime(toInt: Value -> Option<int>, toFloat: Value -> Option<string>,
                             json: string -> Option<Dict<Value>>)

  /** `list(v)`: the characters of a string, the items of a list, the keys of a dictionary;
      `None` (a `TypeError`) for anything that is not iterable. */
  function ListOf(v: Value): Option<Value>
  {
    match v
    case Str(s) => Some(List(seq(|s|, i requires 0 <= i < |s| => Str([s[i]]))))
    case List(xs) => Some(List(xs))
    case Map(es) => Some(List(seq(|es|, i requires 0 <= i < |es| => Str(es[i].0))))
    case _ => None
  }

  /** Applying a registry coercion to a value; `None` where Python raises.
      `datetime.datetime` needs a year, month and day, so with one argument it always raises. */
  function Coerce(rt: Runtime, k: Coercion, v: Value): (r: Option<Value>)
    ensures k == ToStr ==> r == Some(Str(StrOf(v)))
    ensures k == ToDateTime ==> r.None?
    ensures k == ToInt && r.Some? ==> r.value.Int?
    ensures k == ToFloat && r.Some? ==> r.value.Float?
    ensures k == ToList && r.Some? ==> r.value.List?
  {
    match k
    case ToStr => Some(Str(StrOf(v)))
    case ToInt => (match rt.toInt(v) case Some(i) => Some(Int(i)) case None => None)
    case ToFloat => (match rt.toFloat(v) case Some(f) => Some(Float(f)) case None => None)
    case ToDateTime => None
    case ToList => ListOf(v)
  }
}
