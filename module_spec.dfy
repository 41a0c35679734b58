/** Which libraries, modules and declarations belong to the LLVM module being
    produced, given the libraries excluded from it (they are linked from other
    object files). Libraries are opaque identities. */
module ModuleSpecification {

  type Library = nat

  /** A module descriptor, reduced to the library it was loaded from. */
  datatype ModuleDescriptor = ModuleDescriptor(library: Library)

  /** An IR module fragment, reduced to its descriptor. */
  datatype ModuleFragment = ModuleFragment(descriptor: ModuleDescriptor)

  /** A declaration, reduced to the module it belongs to. */
  datatype Declaration = Declaration(owner: ModuleDescriptor)

  datatype LlvmModuleSpecification = LlvmModuleSpecification(excludedLibraries: set<Library>) {

    /** Conservatively, anything excluded must be imported from elsewhere. */
    predicate ImportsKotlinDeclarationsFromOtherObjectFiles()
    {
      excludedLibraries != {}
    }

    predicate ContainsLibrary(library: Library)
    {
      library !in excludedLibraries
    }

    predicate ContainsModuleDescriptor(descriptor: ModuleDescriptor)
    {
      descriptor.library !in excludedLibraries
    }

    predicate ContainsModule(fragment: ModuleFragment)
    {
      ContainsModuleDescriptor(fragment.descriptor)
    }

    predicate ContainsDeclaration(declaration: Declaration)
    {
      declaration.owner.library !in excludedLibraries
    }
  }

  /** Imports are needed exactly when some library is excluded: there is a
      library the module does not contain iff the exclusion set is non-empty. */
  lemma ImportsIffSomeLibraryNotContained(spec: LlvmModuleSpecification)
    ensures spec.ImportsKotlinDeclarationsFromOtherObjectFiles()
      <==> exists l :: !spec.ContainsLibrary(l)
  {
    if spec.excludedLibraries != {} {
      var l :| l in spec.excludedLibraries;
      assert !spec.ContainsLibrary(l);
    }
  }

  /** Module and declaration membership both reduce to membership of the
      library they come from, so a declaration is contained exactly when its
      module is. */
  lemma MembershipAgrees(spec: LlvmModuleSpecification, fragment: ModuleFragment, d: Declaration)
    ensures spec.ContainsModule(fragment) <==> spec.ContainsLibrary(fragment.descriptor.library)
    ensures spec.ContainsDeclaration(d) <==> spec.ContainsModuleDescriptor(d.owner)
    ensures spec.ContainsDeclaration(d) <==> spec.ContainsModule(ModuleFragment(d.owner))
  {
  }

  /** With nothing excluded, everything is contained and nothing imported. */
  lemma EmptyExclusionContainsEverything(l: Library, m: ModuleFragment, d: Declaration)
    ensures var spec := LlvmModuleSpecification({});
      !spec.ImportsKotlinDeclarationsFromOtherObjectFiles() &&
      spec.ContainsLibrary(l) && spec.ContainsModule(m) && spec.ContainsDeclaration(d)
  {
  }

  /** Excluding more libraries never adds members: containment is antitone
      in the exclusion set. */
  lemma ExcludingMoreContainsLess(a: set<Library>, b: set<Library>, d: Declaration)
    requires a <= b
    ensures LlvmModuleSpecification(b).ContainsDeclaration(d)
      ==> LlvmModuleSpecification(a).ContainsDeclaration(d)
    ensures LlvmModuleSpecification(a).ImportsKotlinDeclarationsFromOtherObjectFiles()
      ==> LlvmModuleSpecification(b).ImportsKotlinDeclarationsFromOtherObjectFiles()
  {
  }
}
