/** Constants and tables of the simulator (task.h) and of the kernel code it mirrors. */
module Constants {
  const NICE_0_LOAD: nat := 1024
  const LOAD_AVG_PERIOD: nat := 32
  const LOAD_AVG_MAX: nat := 47742
  const PELT_MIN_DIVIDER: nat := 46718 // LOAD_AVG_MAX - 1024
  const PELT_MAX_PERIODS: nat := 63
  const TICK_NS: nat := 1000000
  const TWO32: nat := 0x1_0000_0000
  const TWO64: nat := 0x1_0000_0000_0000_0000

  /** y^n in Q0.32 for n < 32, with y^32 = 1/2. */
  const YN_INV: seq<nat> := [
    0xffffffff, 0xfa83b2da, 0xf5257d14, 0xefe4b99a,
    0xeac0c6e6, 0xe5b906e6, 0xe0ccdeeb, 0xdbfbb796,
    0xd744fcc9, 0xd2a81d91, 0xce248c14, 0xc9b9bd85,
    0xc5672a10, 0xc12c4cc9, 0xbd08a39e, 0xb8fbaf46,
    0xb504f333, 0xb123f581, 0xad583ee9, 0xa9a15ab4,
    0xa5fed6a9, 0xa2704302, 0x9ef5325f, 0x9b8d39b9,
    0x9837f050, 0x94f4efa8, 0x91c3d373, 0x8ea4398a,
    0x8b95c1e3, 0x88980e80, 0x85aac367, 0x82cd8698
  ]

  /** Weight of each nice level -20..19. */
  const NICE_TO_WEIGHT: seq<nat> := [
    88761, 71755, 56483, 46273, 36291,
    29154, 23254, 18705, 14949, 11916,
    9548, 7620, 6100, 4904, 3906,
    3121, 2501, 1991, 1586, 1277,
    1024, 820, 655, 526, 423,
    335, 272, 215, 172, 137,
    110, 87, 70, 56, 45,
    36, 29, 23, 18, 15
  ]

  /** y^(4i) in Q0.15. */
  const CLTI_DECAY_TABLE: seq<nat> := [32768, 30048, 27554, 25268, 23170, 21247, 19484, 17867]

  /** Representatives of the eight CLTI weight classes. */
  const CLTI_WEIGHT_CLASS: seq<nat> := [65536, 16384, 4096, 2048, 1024, 256, 64, 16]
}
