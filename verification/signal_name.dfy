/**
 * The CEC2 signal-name parser (`parse_cec2_signal_name`): a name such as
 * `S0001_L0001_E001_hr` is split on `_` into a scene, a listener and a system
 * tag made of all the remaining segments rejoined with `_`.
 */
module SignalName {
  import opened Wrappers
  import opened Strings

  /** The three fields of a parsed name. */
  datatype SignalParts = SignalParts(scene: string, listener: string, system: string)

  /**
   * The two ways the parser raises `ValueError`: a name with no `_` cannot be
   * unpacked into `scene, listener, *system`; any other bad name fails the
   * explicit check and is reported with the offending name.
   */
  datatype ParseError =
    | NotEnoughValuesToUnpack
    | InvalidSignalName(name: string)

  /** The textual form of a name with the given fields. */
  function Compose(p: SignalParts): string
  {
    p.scene + "_" + p.listener + "_" + p.system
  }

  /**
   * Parses a signal name. On success the name is exactly scene, `_`,
   * listener, `_`, system, where scene and listener are non-empty and free
   * of `_`; the unpacking error is raised exactly when the name has no `_`.
   */
  function ParseCec2SignalName(name: string): (r: Result<SignalParts, ParseError>)
    ensures r.Success? ==> Compose(r.value) == name
    ensures r.Success? ==> r.value.scene != "" && '_' !in r.value.scene
    ensures r.Success? ==> r.value.listener != "" && '_' !in r.value.listener
    ensures r == Failure(NotEnoughValuesToUnpack) <==> '_' !in name
    ensures r.Failure? && r.error != NotEnoughValuesToUnpack ==> r.error == InvalidSignalName(name)
  {
    var parts := Split(name, '_');
    if |parts| < 2 then
      assert Count(name, '_') == 0;
      NoSeparatorWhenCountZero(name, '_');
      Failure(NotEnoughValuesToUnpack)
    else
      var scene := parts[0];
      var listener := parts[1];
      var system := parts[2..];
      assert '_' in name by {
        assert Join(parts, '_') == parts[0] + ['_'] + Join(parts[1..], '_');
        assert (parts[0] + ['_'] + Join(parts[1..], '_'))[|parts[0]|] == '_';
      }
      if scene == "" || listener == "" || system == [] then
        Failure(InvalidSignalName(name))
      else
        assert name == scene + "_" + listener + "_" + Join(system, '_') by {
          assert parts[1..][1..] == system;
        }
        Success(SignalParts(scene, listener, Join(system, '_')))
  }

  /** A string whose separator count is zero does not contain the separator. */
  lemma {:induction false} NoSeparatorWhenCountZero(s: string, sep: char)
    requires Count(s, sep) == 0
    ensures sep !in s
    decreases |s|
  {
    if |s| > 0 {
      NoSeparatorWhenCountZero(s[1..], sep);
      assert s == [s[0]] + s[1..];
    }
  }

  /**
   * Completeness: every name built from a non-empty `_`-free scene, a
   * non-empty `_`-free listener and any system tag (even an empty one, as in
   * `S_L_`) is accepted and gives back exactly those three fields. With the
   * success clauses of the parser this says: the parser succeeds if and only
   * if the name has this shape, and the fields are then unique.
   */
  lemma {:induction false} ParseComposed(p: SignalParts)
    requires p.scene != "" && '_' !in p.scene
    requires p.listener != "" && '_' !in p.listener
    ensures ParseCec2SignalName(Compose(p)) == Success(p)
  {
    var name := Compose(p);
    var rest := p.listener + "_" + p.system;
    assert name == p.scene + ['_'] + rest;
    SplitAfterPrefix(p.scene, rest, '_');
    SplitAfterPrefix(p.listener, p.system, '_');
    var parts := Split(name, '_');
    assert parts == [p.scene] + ([p.listener] + Split(p.system, '_'));
    assert parts[2..] == Split(p.system, '_');
  }

  /** The fields of a name are determined by the name alone. */
  lemma ParseFieldsUnique(p: SignalParts, q: SignalParts)
    requires p.scene != "" && '_' !in p.scene && p.listener != "" && '_' !in p.listener
    requires q.scene != "" && '_' !in q.scene && q.listener != "" && '_' !in q.listener
    requires Compose(p) == Compose(q)
    ensures p == q
  {
    ParseComposed(p);
    ParseComposed(q);
  }

  /** A name with a single `_` has no system segment and is rejected. */
  lemma RejectsTwoSegments(scene: string, listener: string)
    requires '_' !in scene && '_' !in listener
    ensures ParseCec2SignalName(scene + "_" + listener)
         == Failure(InvalidSignalName(scene + "_" + listener))
  {
    var name := scene + "_" + listener;
    assert Split(name, '_') == [scene, listener] by {
      SplitAfterPrefix(scene, listener, '_');
      SplitWithoutSeparator(listener, '_');
    }
    assert [scene, listener][2..] == [];
  }

  /** A name whose scene segment is empty is rejected. */
  lemma RejectsEmptyScene(rest: string)
    requires '_' in rest
    ensures ParseCec2SignalName("_" + rest) == Failure(InvalidSignalName("_" + rest))
  {
    var name := "_" + rest;
    assert Split(name, '_') == [""] + Split(rest, '_') by {
      assert name == "" + ['_'] + rest;
      SplitAfterPrefix("", rest, '_');
    }
  }

  /** A name whose listener segment is empty is rejected. */
  lemma RejectsEmptyListener(scene: string, rest: string)
    requires '_' !in scene
    ensures ParseCec2SignalName(scene + "__" + rest)
         == Failure(InvalidSignalName(scene + "__" + rest))
  {
    var name := scene + "__" + rest;
    assert Split(name, '_') == [scene] + ([""] + Split(rest, '_')) by {
      assert name == scene + ['_'] + ("" + ['_'] + rest);
      SplitAfterPrefix(scene, "" + ['_'] + rest, '_');
      SplitAfterPrefix("", rest, '_');
    }
  }

  /** The example in the source comment: `S0001_L0001_E001_hr`. */
  lemma ParseExampleHr()
    ensures ParseCec2SignalName("S0001_L0001_E001_hr")
         == Success(SignalParts("S0001", "L0001", "E001_hr"))
  {
    var p := SignalParts("S0001", "L0001", "E001_hr");
    assert Compose(p) == "S0001_L0001_E001_hr";
    ParseComposed(p);
  }

  /** A trailing empty system segment is accepted and yields an empty tag. */
  lemma ParseExampleEmptySystem()
    ensures ParseCec2SignalName("S_L_") == Success(SignalParts("S", "L", ""))
  {
    var p := SignalParts("S", "L", "");
    assert Compose(p) == "S_L_";
    ParseComposed(p);
  }
}
