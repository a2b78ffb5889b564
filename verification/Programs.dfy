/** Program and sysvar addresses, decoded from the base58 the code writes them in. */
module Programs {
  import opened Bytes

  // TokenkegQfeZyiNwAJbNbGKPFXCWuBvf9Ss623VQ5DA
  const TOKEN: Address :=
    [6, 221, 246, 225, 215, 101, 161, 147, 217, 203, 225, 70, 206, 235, 121, 172,
     28, 180, 133, 237, 95, 91, 55, 145, 58, 140, 245, 133, 126, 255, 0, 169]

  // TokenzQdBNbLqP5VEhdkAS6EPFLC1PHnBqCXEpPxuEb
  const TOKEN_2022: Address :=
    [6, 221, 246, 225, 238, 117, 143, 222, 24, 66, 93, 188, 228, 108, 205, 218,
     182, 26, 252, 77, 131, 185, 13, 39, 254, 189, 249, 40, 216, 161, 139, 252]

  // ATokenGPvbdGVxr1b2hvZbsiqW5xWH25efTNsLJA8knL
  const ASSOCIATED_TOKEN: Address :=
    [140, 151, 37, 143, 78, 36, 137, 241, 187, 61, 16, 41, 20, 142, 13, 131,
     11, 90, 19, 153, 218, 255, 16, 132, 4, 142, 123, 216, 219, 233, 248, 89]

  // ComputeBudget111111111111111111111111111111
  const COMPUTE_BUDGET: Address :=
    [3, 6, 70, 111, 229, 33, 23, 50, 255, 236, 173, 186, 114, 195, 155, 231,
     188, 140, 229, 187, 197, 247, 18, 107, 44, 67, 155, 58, 64, 0, 0, 0]

  // MemoSq4gqABAXKb96qnH8TysNcWxMyWCqXgDLGmfcHr
  const MEMO: Address :=
    [5, 74, 83, 90, 153, 41, 33, 6, 77, 36, 232, 113, 96, 218, 56, 124,
     124, 53, 181, 221, 188, 146, 187, 129, 228, 31, 168, 64, 65, 5, 68, 141]

  // L2TExMFKdjpN9kozasaurPirfHy9P8sbXoAN1qA3S95
  const LIGHTHOUSE: Address :=
    [4, 223, 173, 121, 98, 255, 177, 221, 146, 93, 10, 159, 181, 230, 208, 12,
     230, 25, 91, 168, 187, 58, 145, 253, 7, 239, 152, 96, 197, 233, 123, 184]

  // 11111111111111111111111111111111
  const SYSTEM: Address :=
    [0, 0, 0, 0, 0, 0, 0, 0, 0, 0, 0, 0, 0, 0, 0, 0,
     0, 0, 0, 0, 0, 0, 0, 0, 0, 0, 0, 0, 0, 0, 0, 0]

  // SysvarRent111111111111111111111111111111111
  const RENT: Address :=
    [6, 167, 213, 23, 25, 44, 92, 81, 33, 140, 201, 76, 61, 74, 241, 127,
     88, 218, 238, 8, 155, 161, 253, 68, 227, 219, 217, 138, 0, 0, 0, 0]

  // CHNLxYvVA28MJP9PrFuDXccuoGXAx7jBacfLEkahyGsX
  const CHANNEL_PROGRAM: Address :=
    [167, 161, 251, 164, 235, 43, 9, 9, 147, 247, 210, 223, 214, 43, 137, 226,
     184, 114, 7, 122, 99, 159, 215, 215, 71, 168, 233, 159, 99, 212, 21, 174]

  lemma ProgramsDistinct()
    ensures Distinct([TOKEN, TOKEN_2022, ASSOCIATED_TOKEN, COMPUTE_BUDGET, MEMO, LIGHTHOUSE])
  {
    assert TOKEN[0] == 6 && TOKEN_2022[0] == 6 && TOKEN[4] != TOKEN_2022[4];
  }
}
