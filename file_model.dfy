/** `FileModel` of the core library: a file's name, extension and full path,
    compared field by field. */
module FileModels {
  import opened DotNet

  datatype FileModel = FileModel(fileName: string, fileExtension: string, filePath: string)

  /** An `object` argument: null, a `FileModel`, or an object of another
      type. */
  datatype Object = NullObject | AFileModel(model: FileModel) | OtherObject

  /** `ToString`. */
  function ToString(m: FileModel): (r: string)
    ensures r == m.filePath
  {
    m.filePath
  }

  /** `Equals(FileModel?)`: false for null, otherwise the three fields are
      compared with ordinal string equality. */
  predicate Equals(m: FileModel, other: Nullable<FileModel>)
    ensures Equals(m, other) <==> other == NonNull(m)
  {
    match other
    case Null => false
    case NonNull(o) => m.fileName == o.fileName && m.fileExtension == o.fileExtension && m.filePath == o.filePath
  }

  /** `Equals(object?)`: false for null and for any other type, otherwise
      `Equals(FileModel?)`. */
  predicate EqualsObject(m: FileModel, obj: Object)
    ensures EqualsObject(m, obj) <==> obj == AFileModel(m)
  {
    match obj
    case NullObject => false
    case AFileModel(model) => Equals(m, NonNull(model))
    case OtherObject => false
  }

  /** The static `Equals(FileModel?, FileModel?)`: false when either side is
      null. */
  predicate StaticEquals(left: Nullable<FileModel>, right: Nullable<FileModel>)
    ensures StaticEquals(left, right) <==> left.NonNull? && left == right
  {
    if left.Null? || right.Null? then false
    else Equals(left.value, right)
  }

  /** `operator ==`. */
  predicate OpEquals(left: Nullable<FileModel>, right: Nullable<FileModel>)
    ensures OpEquals(left, right) <==> left.NonNull? && left == right
  {
    StaticEquals(left, right)
  }

  /** `operator !=`. */
  predicate OpNotEquals(left: Nullable<FileModel>, right: Nullable<FileModel>)
    ensures OpNotEquals(left, right) <==> left.Null? || left != right
  {
    StaticEquals(left, right) == false
  }

  /** `GetHashCode`: `HashCode.Combine` of the three fields, with the
      process-seeded combination passed in. */
  function GetHashCode(m: FileModel, combine: (string, string, string) -> int): (r: int)
    ensures r == combine(m.fileName, m.fileExtension, m.filePath)
  {
    combine(m.fileName, m.fileExtension, m.filePath)
  }

  // Properties.

  /** `Equals` is reflexive, symmetric and transitive on non-null models. */
  lemma EqualsIsEquivalence(a: FileModel, b: FileModel, c: FileModel)
    ensures Equals(a, NonNull(a))
    ensures Equals(a, NonNull(b)) ==> Equals(b, NonNull(a))
    ensures Equals(a, NonNull(b)) && Equals(b, NonNull(c)) ==> Equals(a, NonNull(c))
  {
  }

  /** `==` is false, and `!=` true, whenever a side is null, even when
      both are; `!=` is always the negation of `==`. */
  lemma NullComparisons(left: Nullable<FileModel>, right: Nullable<FileModel>)
    ensures !OpEquals(Null, right) && !OpEquals(left, Null)
    ensures OpNotEquals(Null, right) && OpNotEquals(left, Null)
    ensures OpNotEquals(left, right) <==> !OpEquals(left, right)
  {
  }

  /** On non-null models, `==` and both instance `Equals` agree. */
  lemma OperatorsAgree(a: FileModel, b: FileModel)
    ensures OpEquals(NonNull(a), NonNull(b)) <==> Equals(a, NonNull(b))
    ensures OpEquals(NonNull(a), NonNull(b)) <==> EqualsObject(a, AFileModel(b))
    ensures OpNotEquals(NonNull(a), NonNull(b)) <==> a != b
  {
  }

  /** Equal models have equal hash codes and equal strings. */
  lemma EqualModelsHashAlike(a: FileModel, b: FileModel, combine: (string, string, string) -> int)
    requires Equals(a, NonNull(b))
    ensures GetHashCode(a, combine) == GetHashCode(b, combine)
    ensures ToString(a) == ToString(b)
  {
  }

  /** `ToString` is the full path; two models may print alike and still
      differ. */
  lemma ToStringIsPath(m: FileModel)
    ensures ToString(m) == m.filePath
    ensures ToString(FileModel("a", ".txt", "/a.txt")) == ToString(FileModel("b", "", "/a.txt"))
    ensures !Equals(FileModel("a", ".txt", "/a.txt"), NonNull(FileModel("b", "", "/a.txt")))
  {
  }
}
