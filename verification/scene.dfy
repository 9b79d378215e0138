/** Scene objects that the scripts reach through optional inspector references. */
module Scene {

  /** An optional reference to a scene object together with the one boolean
      flag the scripts change on it: the active flag of a GameObject, the
      `interactable` flag of a Button or the `mute` flag of an AudioSource.
      `Absent` is a null reference. */
  datatype Handle = Absent | Present(on: bool) {

    /** `if (x) x.flag = v;` -- sets the flag of an existing object and
        silently skips a missing one. */
    function Set(v: bool): (h: Handle)
      ensures h.Present? == Present?
      ensures h.Present? ==> h.on == v
    {
      if Present? then Present(v) else Absent
    }

    /** The object exists and its flag is set. */
    predicate IsOn() {
      Present? && on
    }

    /** Setting the flag twice leaves what the second setting gives: showing
        an object twice is showing it once. */
    lemma SetOverrides(a: bool, b: bool)
      ensures Set(a).Set(b) == Set(b)
    {
    }
  }
}
