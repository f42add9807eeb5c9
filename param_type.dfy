/**
 * The 32-bit parameter type word: flag bits VALID, ENUM and POSTFIX above a
 * 16-bit field holding an enum index, a postfix index or a primitive code.
 *
 * Bitwise operations are written arithmetically. For a one-bit flag `f`,
 * `(w & f) != 0` is `(w / f) % 2 == 1` (Dafny's division floors for a positive
 * divisor, which gives the two's-complement bit also for negative words),
 * `w | f` adds `f` when that bit is clear, and `w & 0xffff` is `w % 0x10000`.
 */
module ParamType {

  /** Set on every type except the postfix-only encoding. */
  const ARG_FLAG_VALID: nat := 0x100000

  const ARG_TYPE_INT: nat := 0x01
  const ARG_TYPE_FLOAT: nat := 0x02
  const ARG_TYPE_VALUE: nat := 0x03
  const ARG_TYPE_WILDCARD_INT: nat := 0x04
  const ARG_TYPE_OPERATOR: nat := 0x05
  const ARG_TYPE_TARGET: nat := 0x06
  const ARG_TYPE_FILEPATH: nat := 0x0e
  const ARG_TYPE_STRING: nat := 0x1b
  const ARG_TYPE_POSITION: nat := 0x1d
  const ARG_TYPE_MESSAGE: nat := 0x20
  const ARG_TYPE_RAWTEXT: nat := 0x22
  const ARG_TYPE_JSON: nat := 0x25
  const ARG_TYPE_COMMAND: nat := 0x2c

  /** Together with VALID: the low 16 bits index the enum table. */
  const ARG_FLAG_ENUM: nat := 0x200000

  /** Without VALID: the low 16 bits index the postfix pool. */
  const ARG_FLAG_POSTFIX: nat := 0x1000000

  /** The primitive codes the source names. */
  const PRIMITIVE_TYPES: set<nat> := {
    ARG_TYPE_INT, ARG_TYPE_FLOAT, ARG_TYPE_VALUE, ARG_TYPE_WILDCARD_INT, ARG_TYPE_OPERATOR,
    ARG_TYPE_TARGET, ARG_TYPE_FILEPATH, ARG_TYPE_STRING, ARG_TYPE_POSITION, ARG_TYPE_MESSAGE,
    ARG_TYPE_RAWTEXT, ARG_TYPE_JSON, ARG_TYPE_COMMAND
  }

  predicate IsFlag(flag: nat) {
    flag == ARG_FLAG_VALID || flag == ARG_FLAG_ENUM || flag == ARG_FLAG_POSTFIX
  }

  /** `($word & $flag) !== 0` */
  predicate HasFlag(word: int, flag: nat)
    requires IsFlag(flag)
  {
    (word / flag) % 2 == 1
  }

  /** `$word | $flag` */
  function WithFlag(word: int, flag: nat): int
    requires IsFlag(flag)
  {
    if HasFlag(word, flag) then word else word + flag
  }

  /** `$word & 0xffff` */
  function Low16(word: int): nat {
    word % 0x1_0000
  }

  /** How the decoder reads a type word. */
  datatype TypeClass = EnumIndex(index: nat) | PostfixIndex(index: nat) | Invalid | Primitive

  /** The decoder's tests, in the source's order: ENUM, then POSTFIX, then VALID. */
  function Classify(word: int): TypeClass {
    if HasFlag(word, ARG_FLAG_ENUM) then EnumIndex(Low16(word))
    else if HasFlag(word, ARG_FLAG_POSTFIX) then PostfixIndex(Low16(word))
    else if !HasFlag(word, ARG_FLAG_VALID) then Invalid
    else Primitive
  }

  /** `ARG_FLAG_ENUM | ARG_FLAG_VALID | $index` */
  function EnumTypeWord(index: int): int {
    WithFlag(WithFlag(index, ARG_FLAG_VALID), ARG_FLAG_ENUM)
  }

  /** `ARG_FLAG_POSTFIX | $key` */
  function PostfixTypeWord(key: int): int {
    WithFlag(key, ARG_FLAG_POSTFIX)
  }

  /** Adding a flag moves the quotient by the flag up by one and keeps the low 16 bits. */
  lemma ShiftByFlag(word: int, flag: nat)
    requires IsFlag(flag)
    ensures (word + flag) / flag == word / flag + 1
    ensures (word + flag) % 0x1_0000 == word % 0x1_0000
  {
    var q, r := word / flag, word % flag;
    assert word + flag == (q + 1) * flag + r;
    var k := flag / 0x1_0000;
    assert flag == k * 0x1_0000;
    var q', r' := word / 0x1_0000, word % 0x1_0000;
    assert word + flag == (q' + k) * 0x1_0000 + r';
  }

  /** Setting a flag sets that bit and leaves the low 16 bits alone. */
  lemma WithFlagSets(word: int, flag: nat)
    requires IsFlag(flag)
    ensures HasFlag(WithFlag(word, flag), flag)
    ensures Low16(WithFlag(word, flag)) == Low16(word)
  {
    if !HasFlag(word, flag) {
      ShiftByFlag(word, flag);
    }
  }

  /** An enum word for a 16-bit index classifies as that enum index and fits a signed 32-bit int. */
  lemma EnumTypeWordClassifies(index: int)
    requires 0 <= index < 0x1_0000
    ensures Classify(EnumTypeWord(index)) == EnumIndex(index)
    ensures EnumTypeWord(index) == 0x300000 + index
  {
  }

  /** A postfix word for a 16-bit index classifies as that postfix index and fits a signed 32-bit int. */
  lemma PostfixTypeWordClassifies(key: int)
    requires 0 <= key < 0x1_0000
    ensures Classify(PostfixTypeWord(key)) == PostfixIndex(key)
    ensures PostfixTypeWord(key) == 0x1000000 + key
  {
  }

  /** The lookup miss `?? -1` for an enum gives a word with every bit set: -1 itself. */
  lemma EnumTypeWordOfMissing()
    ensures EnumTypeWord(-1) == -1
  {
  }

  /** A word is kept as a primitive exactly when VALID is set and ENUM and POSTFIX are clear. */
  lemma ClassifyPrimitive(word: int)
    ensures Classify(word) == Primitive <==>
            HasFlag(word, ARG_FLAG_VALID) && !HasFlag(word, ARG_FLAG_ENUM) && !HasFlag(word, ARG_FLAG_POSTFIX)
  {
  }

  /** ENUM is tested first: a word with both ENUM and POSTFIX set is an enum reference. */
  lemma EnumBeforePostfix()
    ensures HasFlag(0x1200005, ARG_FLAG_POSTFIX)
    ensures Classify(0x1200005) == EnumIndex(5)
  {
  }

  /** A word with no flag set, such as 0, is invalid. */
  lemma ZeroIsInvalid()
    ensures Classify(0) == Invalid
  {
  }

  /** The primitive code is not checked: VALID with an unnamed code 0x07 is still a primitive. */
  lemma UnnamedCodeIsPrimitive()
    ensures 0x07 !in PRIMITIVE_TYPES
    ensures Classify(ARG_FLAG_VALID + 0x07) == Primitive
  {
  }
}
