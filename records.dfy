/**
 * The user record of the directory and the form that builds one.
 * A record is a plain value: the application never mutates one in place,
 * it only builds new records (a record spread) and new collections.
 */
module Records {

  /** A field value. The seeded record carries the number 15 as its age,
      the form produces text for every field, so `age` may be either. */
  datatype Value = Text(text: string) | Number(number: int)

  datatype User = User(
    name: string,
    surname: string,
    email: string,
    age: Value,
    job: string,
    image: string)

  /** The named text inputs of the form; `image` is set by the file picker, not by these. */
  datatype Field = Name | Surname | Email | Age | Job

  /** The bundled placeholder picture, an opaque reference. */
  const PlaceholderImage: string := "no-image-icon-6.png"

  /** The one record seeded when no directory has been stored yet. */
  const DefaultUser: User :=
    User("Xojiakbar", "M", "Xojiakbar422@gmail.com", Number(15), "oqivchi", PlaceholderImage)

  /** The form's initial contents, restored after every submission. */
  const BlankForm: User := User("", "", "", Text(""), "", PlaceholderImage)

  /** The value a form input shows for field `f` of `u`. */
  function Get(u: User, f: Field): (v: Value)
  {
    match f
    case Name => Text(u.name)
    case Surname => Text(u.surname)
    case Email => Text(u.email)
    case Age => u.age
    case Job => Text(u.job)
  }

  /** `{ ...u, [f]: v }`: the record with field `f` replaced by the input's text. */
  function SetField(u: User, f: Field, v: string): (r: User)
    ensures Get(r, f) == Text(v)
    ensures forall g :: g != f ==> Get(r, g) == Get(u, g)
    ensures r.image == u.image
  {
    match f
    case Name => u.(name := v)
    case Surname => u.(surname := v)
    case Email => u.(email := v)
    case Age => u.(age := Text(v))
    case Job => u.(job := v)
  }

  /** A record is determined by its five input fields and its image. */
  lemma SameFields(a: User, b: User)
    requires forall f :: Get(a, f) == Get(b, f)
    requires a.image == b.image
    ensures a == b
  {
    assert Get(a, Name) == Get(b, Name);
    assert Get(a, Surname) == Get(b, Surname);
    assert Get(a, Email) == Get(b, Email);
    assert Get(a, Age) == Get(b, Age);
    assert Get(a, Job) == Get(b, Job);
  }

  /** Typing into the same input twice keeps only the last text. */
  lemma SetFieldOverwrites(u: User, f: Field, v: string, w: string)
    ensures SetField(SetField(u, f, v), f, w) == SetField(u, f, w)
  {
    SameFields(SetField(SetField(u, f, v), f, w), SetField(u, f, w));
  }

  /** Changes to two different inputs do not interfere. */
  lemma SetFieldCommutes(u: User, f: Field, g: Field, v: string, w: string)
    requires f != g
    ensures SetField(SetField(u, f, v), g, w) == SetField(SetField(u, g, w), f, v)
  {
    SameFields(SetField(SetField(u, f, v), g, w), SetField(SetField(u, g, w), f, v));
  }
}
