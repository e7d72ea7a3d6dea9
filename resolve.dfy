/**
 * Values of Dessert's resolve layer that the slicing code consumes. Their
 * Java classes (ClassFileEntry, ClassContainer, ClassPackage, root files)
 * are not part of this model; they appear here as plain values with
 * equality.
 */
module Resolve {
  import opened Wrappers

  /** A classes directory or jar file, identified by its path. */
  datatype RootFile = RootFile(path: string)

  /** One `.class` file found in a root. */
  datatype ClassFileEntry = ClassFileEntry(root: RootFile, classname: string, filename: string)

  /**
   * A container of class files: either a `ClassPackage`, which knows its
   * parent package (`getParent()` may be null), or some other container.
   * `classes` is `None` where `getClasses()` returns null.
   */
  datatype ClassContainer =
    | ClassPackage(rootFile: RootFile, packageName: string,
                   classes: Option<seq<ClassFileEntry>>, parent: Option<ClassContainer>)
    | OtherContainer(rootFile: RootFile, packageName: string, classes: Option<seq<ClassFileEntry>>)
}
