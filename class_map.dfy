/**
 * `ClassMap`: the registry of which source file produced which classes, kept in two
 * directions that the updates change independently.
 */
module ClassMapping {
  import opened Wrappers
  import opened Abi

  type SourcePath = string

  /** The source-to-classes direction grouped from a class-to-source map. */
  function GroupBySource(classToSource: map<ClassName, SourcePath>): map<SourcePath, set<ClassName>> {
    map s | s in classToSource.Values :: set c | c in classToSource && classToSource[c] == s
  }

  /** Both directions describe the same relation. */
  ghost predicate Consistent(classToSource: map<ClassName, SourcePath>, sourceToClass: map<SourcePath, set<ClassName>>) {
    forall c, s :: (c in classToSource && classToSource[c] == s) <==> (s in sourceToClass && c in sourceToClass[s])
  }

  /** Grouping yields the same relation, keyed only by sources that own a class. */
  lemma GroupBySourceIsInverse(classToSource: map<ClassName, SourcePath>)
    ensures Consistent(classToSource, GroupBySource(classToSource))
    ensures forall s :: s in GroupBySource(classToSource) ==> GroupBySource(classToSource)[s] != {}
  {
    var g := GroupBySource(classToSource);
    forall c, s ensures (c in classToSource && classToSource[c] == s) <==> (s in g && c in g[s]) {
      if c in classToSource && classToSource[c] == s {
        assert s in classToSource.Values;
      }
    }
    forall s | s in g ensures g[s] != {} {
      var c :| c in classToSource && classToSource[c] == s;
      assert c in g[s];
    }
  }

  /** The state after `removeSourceFile(source)`. */
  function RemovedClassToSource(classToSource: map<ClassName, SourcePath>, sourceToClass: map<SourcePath, set<ClassName>>,
                                source: SourcePath): map<ClassName, SourcePath> {
    classToSource - ClassesOrEmpty(sourceToClass, source)
  }

  function ClassesOrEmpty(sourceToClass: map<SourcePath, set<ClassName>>, source: SourcePath): set<ClassName> {
    if source in sourceToClass then sourceToClass[source] else {}
  }

  /** The class-to-source direction after `registerSourceClassRelationship(source, classes)`. */
  function RegisteredClassToSource(classToSource: map<ClassName, SourcePath>, source: SourcePath,
                                   classes: set<ClassName>): map<ClassName, SourcePath> {
    map c | c in classToSource.Keys + classes :: if c in classes then source else classToSource[c]
  }

  /** Removing a source keeps a consistent registry consistent. */
  lemma RemovePreservesConsistency(classToSource: map<ClassName, SourcePath>, sourceToClass: map<SourcePath, set<ClassName>>,
                                   source: SourcePath)
    requires Consistent(classToSource, sourceToClass)
    ensures Consistent(RemovedClassToSource(classToSource, sourceToClass, source), sourceToClass - {source})
  {
    var c2s := RemovedClassToSource(classToSource, sourceToClass, source);
    var s2c := sourceToClass - {source};
    forall c, s ensures (c in c2s && c2s[c] == s) <==> (s in s2c && c in s2c[s]) {
      if s in s2c && c in s2c[s] {
        assert classToSource[c] == s;
      }
    }
  }

  /**
   * Registering classes under a source that owns none, when no other source owns any of
   * them, keeps a consistent registry consistent. This is the situation of a fresh class map
   * filled from one compilation.
   */
  lemma RegisterFreshPreservesConsistency(classToSource: map<ClassName, SourcePath>, sourceToClass: map<SourcePath, set<ClassName>>,
                                          source: SourcePath, classes: set<ClassName>)
    requires Consistent(classToSource, sourceToClass)
    requires source !in sourceToClass
    requires forall c :: c in classes ==> c !in classToSource
    ensures Consistent(RegisteredClassToSource(classToSource, source, classes), sourceToClass[source := classes])
  {
    var c2s := RegisteredClassToSource(classToSource, source, classes);
    var s2c := sourceToClass[source := classes];
    forall c, s ensures (c in c2s && c2s[c] == s) <==> (s in s2c && c in s2c[s]) {
      assert !(c in classToSource && classToSource[c] == source);
    }
  }

  /**
   * Registration does not keep the directions in step: re-registering a source with fewer
   * classes leaves the dropped class pointing at it.
   */
  lemma RegisterCanDrift()
    ensures var c2s := map["A" := "a.java"];
      var s2c := GroupBySource(c2s);
      Consistent(c2s, s2c) &&
      !Consistent(RegisteredClassToSource(c2s, "a.java", {}), s2c["a.java" := {}])
  {
    var c2s := map["A" := "a.java"];
    GroupBySourceIsInverse(c2s);
    var after := RegisteredClassToSource(c2s, "a.java", {});
    var s2c' := GroupBySource(c2s)["a.java" := {}];
    assert "A" in after && after["A"] == "a.java";
    assert !("a.java" in s2c' && "A" in s2c'["a.java"]);
  }

  /** A class taken over by another source stays in its former source's set. */
  lemma TakeOverCanDrift()
    ensures var c2s := map["A" := "a.java"];
      var s2c := GroupBySource(c2s);
      !Consistent(RegisteredClassToSource(c2s, "b.java", {"A"}), s2c["b.java" := {"A"}])
  {
    var c2s := map["A" := "a.java"];
    var s2c := GroupBySource(c2s);
    assert c2s["A"] == "a.java";
    assert "a.java" in c2s.Values;
    assert "A" in s2c["a.java"];
    var after := RegisteredClassToSource(c2s, "b.java", {"A"});
    var s2c' := s2c["b.java" := {"A"}];
    assert after["A"] == "b.java";
    assert "a.java" in s2c' && "A" in s2c'["a.java"];
  }

  class ClassMap {
    var classToSource: map<ClassName, SourcePath>
    var sourceToClass: map<SourcePath, set<ClassName>>

    /** Built from a class-to-source map; the other direction is its grouping by source. */
    constructor (init: map<ClassName, SourcePath>)
      ensures classToSource == init
      ensures sourceToClass == GroupBySource(init)
    {
      classToSource := init;
      sourceToClass := GroupBySource(init);
    }

    /** `serialiseToMap`: the class-to-source direction. */
    function SerialiseToMap(): (m: map<ClassName, SourcePath>)
      reads this
      ensures m.Keys == classToSource.Keys
      ensures forall c :: c in m ==> m[c] == classToSource[c]
    {
      classToSource
    }

    /** `classesOf`: the classes of a registered source; an "Illegal access" error otherwise. */
    function ClassesOf(source: SourcePath): (r: Result<set<ClassName>>)
      reads this
      ensures r.Success? <==> source in sourceToClass
      ensures r.Success? ==> r.value == sourceToClass[source]
      ensures r.Failure? ==> r.error == "Illegal access"
    {
      if source in sourceToClass then Success(sourceToClass[source]) else Failure("Illegal access")
    }

    /** `sourceFileOf`: the source of a registered class; an "Illegal access" error otherwise. */
    function SourceFileOf(className: ClassName): (r: Result<SourcePath>)
      reads this
      ensures r.Success? <==> className in classToSource
      ensures r.Success? ==> r.value == classToSource[className]
      ensures r.Failure? ==> r.error == "Illegal access"
    {
      if className in classToSource then Success(classToSource[className]) else Failure("Illegal access")
    }

    /** `removeSourceFile`: forgets the source and its classes, and returns those classes. */
    method RemoveSourceFile(source: SourcePath) returns (classes: set<ClassName>)
      modifies this
      ensures classes == ClassesOrEmpty(old(sourceToClass), source)
      ensures sourceToClass == old(sourceToClass) - {source}
      ensures classToSource == RemovedClassToSource(old(classToSource), old(sourceToClass), source)
    {
      classes := ClassesOrEmpty(sourceToClass, source);
      sourceToClass := sourceToClass - {source};
      classToSource := classToSource - classes;
    }

    /** `registerSourceClassRelationship`: each class now comes from `source`, and `source` has exactly `classes`. */
    method RegisterSourceClassRelationship(source: SourcePath, classes: set<ClassName>)
      modifies this
      ensures classToSource == RegisteredClassToSource(old(classToSource), source, classes)
      ensures sourceToClass == old(sourceToClass)[source := classes]
    {
      ghost var before := classToSource;
      var todo := classes;
      while todo != {}
        invariant todo <= classes
        invariant classToSource == RegisteredClassToSource(before, source, classes - todo)
        invariant sourceToClass == old(sourceToClass)
        decreases todo
      {
        var className :| className in todo;
        classToSource := classToSource[className := source];
        todo := todo - {className};
      }
      assert classes - todo == classes;
      sourceToClass := sourceToClass[source := classes];
    }
  }

  /** After construction, both lookups agree with the map it was built from. */
  lemma LookupsAfterConstruction(init: map<ClassName, SourcePath>, c: ClassName, s: SourcePath)
    ensures c in init && init[c] == s <==> s in GroupBySource(init) && c in GroupBySource(init)[s]
    ensures s in GroupBySource(init) <==> exists k :: k in init && init[k] == s
  {
    GroupBySourceIsInverse(init);
    if exists k :: k in init && init[k] == s {
      var k :| k in init && init[k] == s;
      assert s in init.Values;
    }
  }

  /** Registration answers the new lookups and leaves other sources' sets alone. */
  lemma LookupsAfterRegistration(classToSource: map<ClassName, SourcePath>, source: SourcePath, classes: set<ClassName>, c: ClassName)
    ensures c in classes ==> c in RegisteredClassToSource(classToSource, source, classes) &&
                             RegisteredClassToSource(classToSource, source, classes)[c] == source
    ensures c !in classes ==> (c in RegisteredClassToSource(classToSource, source, classes) <==> c in classToSource)
    ensures c !in classes && c in classToSource ==> RegisteredClassToSource(classToSource, source, classes)[c] == classToSource[c]
  {
  }
}
