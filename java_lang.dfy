/**
 * Java-level values shared by the test-support classes: object references
 * (with `null`), thrown exceptions, and an abstract descriptor of a class
 * that stands in for what the code reads through reflection.
 */
module JavaLang {

  datatype Option<+T> = None | Some(value: T)

  /** A fully qualified class name; two `Class` objects are the same class iff their names agree. */
  type ClassName = string

  /** Java object references. `Null` is Java's `null`. */
  datatype Obj =
    | Null
    | ArrayObj(component: ClassName, elements: seq<Obj>)
    | Proxy(iface: ClassName, identity: int)          // a dynamic proxy whose handler carries `identity`
    | Opaque(cls: ClassName, tag: nat)                // any other object: a constant, a fresh instance, a boxed value, ...

  datatype Exception =
    | IllegalArgument
    | NoSuchElement
    | ArrayIndexOutOfBounds
    | StackOverflow

  /** How a Java call ends: it returns a reference or it throws. */
  datatype Outcome<+T> = Returned(value: T) | Threw(exception: Exception)

  /** What `Class.getConstructor()` followed by `newInstance()` does for a class. */
  datatype Constructor =
    | NoPublicNoArgConstructor            // getConstructor() throws NoSuchMethodException
    | Instantiates(instance: Obj)         // newInstance() returns this object
    | ConstructorThrows                   // newInstance() throws InvocationTargetException

  /** A declared field as `Class.getDeclaredFields()` reports it. */
  datatype Field = Field(
    name: string,
    isPublic: bool,
    isStatic: bool,
    isFinal: bool,
    genericTypeIsRaw: bool,               // field.getGenericType() == field.getType()
    typeAssignableToOwner: bool,          // owner.isAssignableFrom(field.getType())
    value: Obj)                           // field.get(null)

  /** The reflective facts about a class that the test-support code consults. */
  datatype ClassInfo = ClassInfo(
    name: ClassName,
    isEnum: bool,
    enumConstants: seq<Obj>,
    isArray: bool,
    componentType: ClassName,
    isInterface: bool,
    isAbstract: bool,
    isPublic: bool,
    ctor: Constructor,
    fields: seq<Field>)

  /**
   * `Modifier.isAbstract(c.getModifiers())`: the class file of every interface
   * carries the abstract modifier, so an interface is abstract whatever `isAbstract` says.
   */
  predicate AbstractModifier(c: ClassInfo) {
    c.isAbstract || c.isInterface
  }

  const StreamClass: ClassName := "java.util.stream.Stream"

  /** The object `Stream.empty()` returns. */
  const EmptyStream: Obj := Opaque(StreamClass, 0)

  /** Java's `Map.get`: the mapped value, or `null` for a missing key. */
  function MapGet<K>(m: map<K, Obj>, k: K): (r: Obj)
    ensures k !in m ==> r == Null
    ensures k in m ==> r == m[k]
  {
    if k in m then m[k] else Null
  }
}
