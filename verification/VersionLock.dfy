/** The versioned lock word of `version_types.c`: bit 0 is the lock bit, the other bits are a version.
    Words are unbounded integers here, so no version ever wraps around. */
module VersionLock {

  // Number of lock words; addresses are hashed onto them.
  const LOCK_ARRAY_SIZE := 2097152

  predicate Locked(word: int) {
    word % 2 == 1
  }

  /** The word with its lock bit cleared. */
  function Version(word: int): (v: int)
    ensures v <= word <= v + 1 && v % 2 == 0
    ensures Locked(word) <==> word == v + 1
  {
    word - word % 2
  }

  /** `lock_check`: free, and not newer than `own`. Shifting right by one floors. */
  predicate Check(word: int, own: int) {
    !(Locked(word) || word / 2 > own / 2)
  }

  /** `lock_check_version`: not newer than `own`, whatever the lock bit says. */
  predicate CheckVersion(word: int, own: int) {
    !(word / 2 > own / 2)
  }

  /** The shifted comparisons compare version parts exactly, because transactions carry even versions. */
  lemma CheckComparesVersions(word: int, own: int)
    requires own % 2 == 0
    ensures Check(word, own) <==> word == Version(word) && Version(word) <= own
    ensures CheckVersion(word, own) <==> Version(word) <= own
  {
    assert word == 2 * (word / 2) + word % 2;
    assert own == 2 * (own / 2);
  }
}
