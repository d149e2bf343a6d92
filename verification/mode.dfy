/** Unix permission arithmetic of `RenderedTemplate`: the executable flag read from the
    template's mode, and the "+x where r or w is allowed" update applied to a written file. */
module Mode {

  /** `0o111`: the execute bits of owner, group and other. */
  const ExecBits: bv32 := 0x49

  /** `mode & 0o111 != 0`: the owner, the group or others may execute the template. */
  function IsExecutable(mode: bv32): (r: bool)
    ensures r <==> mode & 0x40 != 0 || mode & 0x8 != 0 || mode & 0x1 != 0
  {
    mode & ExecBits != 0
  }

  /** One iteration of the loop in `write`: the class at `shift` (0 others, 3 group, 6 owner)
      gets its execute bit `1 << shift` when one of its read and write bits `6 << shift` is set. */
  function GrantClass(mode: bv32, shift: bv5): bv32 {
    if mode & (6 << shift) != 0 then mode | (1 << shift) else mode
  }

  /** For the three class shifts, the class's execute bit ends up set exactly when it was set or
      the class may read or write, and every other bit is kept. */
  lemma GrantClassSpec(mode: bv32, shift: bv5)
    requires shift == 0 || shift == 3 || shift == 6
    ensures GrantClass(mode, shift) & (1 << shift) != 0
      <==> mode & (1 << shift) != 0 || mode & (6 << shift) != 0
    ensures GrantClass(mode, shift) & !(1 << shift) == mode & !(1 << shift)
  {
    if shift == 0 {
    } else if shift == 3 {
    } else {
    }
  }

  /** The whole loop over the shifts 0, 3 and 6: each class ends up executable exactly when it
      already was or may read or write, so a class the umask left without any permission stays
      without x; no bit other than the three execute bits changes. */
  function PlusX(mode: bv32): (r: bv32)
    ensures r & 0x1 != 0 <==> mode & 0x1 != 0 || mode & 0x6 != 0
    ensures r & 0x8 != 0 <==> mode & 0x8 != 0 || mode & 0x30 != 0
    ensures r & 0x40 != 0 <==> mode & 0x40 != 0 || mode & 0x180 != 0
    ensures r & !ExecBits == mode & !ExecBits
  {
    GrantClass(GrantClass(GrantClass(mode, 0), 3), 6)
  }

  /** Applying the update to its own result changes nothing. */
  lemma PlusXIdempotent(mode: bv32)
    ensures PlusX(PlusX(mode)) == PlusX(mode)
  {
  }

  /** A file whose mode had some permission bit set is executable afterwards. */
  lemma PlusXMakesExecutable(mode: bv32)
    requires mode & 0x1FF != 0
    ensures IsExecutable(PlusX(mode))
  {
  }
}
