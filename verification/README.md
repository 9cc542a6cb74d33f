# Exact gate algebra and Shor's classical driver of BitOQSim, in Dafny

This project models the integer-valued heart of the BitOQSim quantum circuit
simulator. Two pieces are covered.

- **The gate algebra of `QuantumCircuitMatrix`.**
  - The bra/ket builders `get_bra` and `get_ket`, on the symbols `0` and `1` and on integer arguments.
  - The outer-product gates and the constants they are meant to equal: Pauli X/Y/Z, `CU_Gate`, CNOT/CY/CZ and swap. Each gate constant, and `CU_Gate` of a unitary U, is proved unitary.
  - The recursive `identity_gate_helper`, and the generalised NOT gates `quantum_not_gate_matrix` and `reverse_quantum_not_gate_matrix`.
  - The register helpers: `get_qubit_matrix`/`get_qubit_vector` with the zero-qubit variants, the matrix↔vector conversions, and `applied_swap_gate`.
- **The Shor example.**
  - The controlled multipliers `c_amod15` and `c_amodb`.
  - The classical factoring loop `ShorFactoringAlgorithmClassical`. Its random guess and period function are oracles.

Every entry the core produces is 0, ±1 or ±i. Matrices are therefore
`seq<seq<Cx>>` over Gaussian integers (module `Complex`), and every property is
an exact equality. `Kron` follows numpy's `kron`: the left factor is the more
significant index.

Modules, leaf first:

| file | module | what it holds |
|---|---|---|
| results.dfy | Results | `Result`/`Option`, and the errors the source raises (ValueError, IndexError, shape errors, RecursionError) |
| arith.dfy | Arith | `Pow`, `Pow2` and division facts |
| complex.dfy | Complex | Gaussian integers, conjugation and 0/1 indicators |
| matrices.dfy | Matrices | matrices, `Kron`, products, conjugate transposes, unitarity, permutation matrices and transpositions |
| registers.dfy | Registers | `get_qubit_matrix`/`vector`, the zero variants and the conversions |
| basis.dfy | Basis | `get_bra`/`get_ket` |
| gates.dfy | Gates | gate constants, block-diagonal form, Pauli gates |
| controlled.dfy | Controlled | `CU_Gate`, CNOT/CY/CZ |
| swapgate.dfy | SwapGate | `Swap_Gate` |
| identity.dfy | OuterIdentity | `identity_gate_helper`, `identity_gate` |
| notgates.dfy | NotGates | `quantum_not_gate_matrix` and `reverse_quantum_not_gate_matrix` |
| appliedswap.dfy | AppliedSwap | `applied_swap_gate` as written, and a corrected version |
| modmult.dfy | ModMult | `c_amod15`, `c_amodb` |
| numbers.dfy | Numbers | gcd, integer square root, stripping a prime factor |
| factoring.dfy | Factoring | `ShorFactoringAlgorithmClassical` |

## Model

| member | source | states |
|---|---|---|
| Basis.SymbolString | src/QuantumCircuitMatrix.py:171-186 | A symbol string is built only when every character is `0` or `1`. A character outside `0`, `1`, `+` and `-` is exactly the ValueError case. |
| Basis.BitStringBasis | src/QuantumCircuitMatrix.py:171-186 | A string over {0,1} of length k builds the 2^k basis vector whose index reads the string as binary with the FIRST character least significant. |
| Basis.BitArgsBasis | src/QuantumCircuitMatrix.py:145-163 | Integer arguments 0/1 build the basis vector whose index reads them with the FIRST argument most significant. |
| Basis.BuildStringAndArgs | src/QuantumCircuitMatrix.py:187-190 | With both a string and bit arguments, the string block is the more significant factor of the index. |
| Basis.BuildOnBits | src/QuantumCircuitMatrix.py:144-193 | Over 0/1 input, nothing at all gives ⟨0\| or \|0⟩. Otherwise the result is the single basis vector of size 2^(\|s\|+\|args\|) at the combined index. |
| Basis.KronBasis | src/QuantumCircuitMatrix.py:186 | numpy's `kron` of two basis vectors is the basis vector at index a·n + b. |
| Basis.KronBasisAssociative | src/QuantumCircuitMatrix.py:178-190 | On basis vectors `kron` is associative: kron(kron(A, B), C) and kron(A, kron(B, C)) are the same basis vector, at index (a·n + b)·p + c. |
| Basis.StringZeroOne | src/QuantumCircuitMatrix.py:171-186 | `get_ket(qubit_string="01")` is \|2⟩ of 4, because the string's first character is least significant. |
| Basis.ArgsOneZero | src/QuantumCircuitMatrix.py:145-163 | `get_ket(1, 0)` is \|2⟩ of 4, equal to `get_ket("01")`. |
| Basis.ArgsZeroOne | src/QuantumCircuitMatrix.py:145-163 | `get_ket(0, 1)` is \|1⟩ of 4. |
| Basis.StringArgZeroOne | src/QuantumCircuitMatrix.py:149-151 | A string passed positionally, `get_ket("01")`, equals the `qubit_string` form. |
| Basis.ArgsOrderMatters | src/QuantumCircuitMatrix.py:145-163 | `get_ket(0, 1) != get_ket(1, 0)`. |
| Basis.UnsupportedSymbol | src/QuantumCircuitMatrix.py:182-185 | Once the positional arguments build, any character outside the four symbols raises ValueError. The build succeeds exactly on 0/1 strings. |
| Basis.Build | src/QuantumCircuitMatrix.py:123-193 | The shared body of both builders succeeds only on a 0/1 string (or none), and an error from the positional arguments is the result unchanged. |
| Basis.BuildOutcomes | src/QuantumCircuitMatrix.py:123-193 | On 0/1 arguments and a 0/1 string the build is the basis vector of size 2^(\|s\|+\|args\|) at the combined index, or \|0⟩/⟨0\| for no input at all. After the arguments build, a non-symbol character is ValueError. |
| Basis.GetKet | src/QuantumCircuitMatrix.py:123-193 | `get_ket`: \|0⟩ for no input, the column basis vector at the combined index on 0/1 input, no success on a string that is not 0/1, and, once the positional arguments build, ValueError on a non-symbol character. |
| Basis.GetBra | src/QuantumCircuitMatrix.py:52-120 | `get_bra`: the same outcomes as `get_ket`, as a row, with ValueError on a non-symbol character once the positional arguments build. |
| Basis.IntegerArgument | src/QuantumCircuitMatrix.py:164-170 | An integer v ≥ 2 succeeds exactly when v is not a power of two, and then gives \|v⟩ in the smallest 2^k ≥ v. For a power of two the write is out of range. A negative v succeeds exactly for -2 and -1, by Python's index wrap. |
| Gates.PrimitivesBuilt | src/QuantumCircuitMatrix.py:159-163 | `get_bra(0)`, `get_bra(1)`, `get_ket(0)` and `get_ket(1)` are the 2-entry primitives. |
| Gates.OuterKetBra | src/QuantumCircuitMatrix.py:472-475 | `kron(\|x⟩, ⟨y\|)` is the unit matrix with its 1 at (x, y). |
| Gates.OuterBraKet | src/QuantumCircuitMatrix.py:309-312 | `kron(⟨y\|, \|x⟩)`, a row by a column, is the same unit matrix. |
| Gates.PauliXGate | src/QuantumCircuitMatrix.py:237-256 | `Pauli_X_Gate()`, the sum of the outer products ⟨0\|⊗\|1⟩ and \|0⟩⊗⟨1\|, equals the constant `Pauli_X_gate`. |
| Gates.PauliYGate | src/QuantumCircuitMatrix.py:259-276 | `Pauli_Y_Gate()`, i times the difference of its two outer products, equals the constant `Pauli_Y_gate`. |
| Gates.PauliZGate | src/QuantumCircuitMatrix.py:279-296 | `Pauli_Z_Gate()`, \|0⟩⟨0\| minus \|1⟩⟨1\|, equals the constant `Pauli_Z_gate`. |
| Gates.PauliXPermutation | src/QuantumCircuitMatrix.py:358-359 | `Pauli_X_gate` is the transposition of 0 and 1. |
| Gates.PauliXUnitary | src/QuantumCircuitMatrix.py:358-359 | `Pauli_X_gate` equals its conjugate transpose and X·X^† = I₂, so it is unitary and its own inverse. |
| Gates.PauliYUnitary | src/QuantumCircuitMatrix.py:371-372 | `Pauli_Y_gate` equals its conjugate transpose and Y·Y^† = I₂, so it is unitary and its own inverse. |
| Gates.PauliZUnitary | src/QuantumCircuitMatrix.py:383-384 | `Pauli_Z_gate` equals its conjugate transpose and Z·Z^† = I₂, so it is unitary and its own inverse. |
| Gates.OneQubitIdentityIsIdentity | src/QuantumCircuitMatrix.py:226-233 | The one- and two-qubit identity constants are I₂ and I₄. |
| Gates.CnotIsTransposition | src/QuantumCircuitMatrix.py:396-397 | `CNOT_gate` is the permutation matrix exchanging only 2 and 3. |
| Gates.SwapIsTransposition | src/QuantumCircuitMatrix.py:478-481 | `swap_gate` is the permutation matrix exchanging only 1 and 2. |
| Gates.BlockDiagPermutation | src/QuantumCircuitMatrix.py:680-686 | diag(1,0)⊗P + diag(0,1)⊗Q of two permutation matrices is the permutation matrix of P on the first half and Q, shifted, on the second. |
| Controlled.ProjectorsAreUnits | src/QuantumCircuitMatrix.py:309-312 | The two `kron(get_bra(k), get_ket(k))` products are \|0⟩⟨0\| and \|1⟩⟨1\|. |
| Controlled.CUGate | src/QuantumCircuitMatrix.py:299-315 | `CU_Gate(U)` succeeds exactly when U is 2×2, because numpy cannot add the 4×4 terms otherwise. The result is 4×4. |
| Controlled.CUGateIsBlockDiag | src/QuantumCircuitMatrix.py:299-315 | For 2×2 U, `CU_Gate(U)` is diag(1,0)⊗I₂ + diag(0,1)⊗U. |
| Controlled.CUGateUnitary | src/QuantumCircuitMatrix.py:299-315 | For a unitary 2×2 U, `CU_Gate(U)` succeeds and is unitary. When U is also its own conjugate transpose, so is `CU_Gate(U)`. |
| Controlled.ControlledPaulisUnitary | src/QuantumCircuitMatrix.py:394-411 | `CNOT_gate`, `CY_gate` and `CZ_gate` each equal their conjugate transpose, are unitary, and square to I₄. |
| Controlled.CnotGate | src/QuantumCircuitMatrix.py:318-328 | `CNOT_Gate()`, built as `CU_Gate(Pauli_X_Gate())`, succeeds and equals the constant `CNOT_gate`. |
| Controlled.CyGate | src/QuantumCircuitMatrix.py:331-340 | `CY_Gate()` succeeds and equals the constant `CY_gate`. |
| Controlled.CzGate | src/QuantumCircuitMatrix.py:343-352 | `CZ_Gate()` succeeds and equals the constant `CZ_gate`. |
| Controlled.CnotAction | src/QuantumCircuitMatrix.py:394-397 | CNOT maps \|a,b⟩ to \|a, a ⊕ b⟩. |
| SwapGate.TwoBitValues | src/QuantumCircuitMatrix.py:464-471 | "01" names index 2 and "10" names index 1, because the first character is least significant. |
| SwapGate.StringArgument | src/QuantumCircuitMatrix.py:149-151 | A positional string argument builds the same vector as the string itself. |
| SwapGate.Outer | src/QuantumCircuitMatrix.py:472-475 | `kron(get_ket(s), get_bra(t))` is the unit matrix at (value of s, value of t). |
| SwapGate.SwapBuildersAgree | src/QuantumCircuitMatrix.py:462-471 | The two-character `get_ket`/`get_bra` calls of `Swap_Gate` are the string folds. |
| SwapGate.SwapGate | src/QuantumCircuitMatrix.py:453-481 | `Swap_Gate()`, the sum of four string-built outer products, equals the constant `swap_gate` and is the permutation matrix exchanging only indices 1 and 2. |
| SwapGate.SwapUnits | src/QuantumCircuitMatrix.py:472-481 | The four unit matrices at (0,0), (1,2), (2,1) and (3,3) add up to `swap_gate`. |
| SwapGate.SwapAction | src/QuantumCircuitMatrix.py:478-482 | `swap_gate` maps \|a,b⟩ to \|b,a⟩. |
| SwapGate.SwapSelfInverse | src/QuantumCircuitMatrix.py:478-481 | `swap_gate` is its own inverse. |
| SwapGate.SwapUnitary | src/QuantumCircuitMatrix.py:478-481 | `swap_gate` equals its conjugate transpose and is unitary. |
| OuterIdentity.ProductsAreUnits | src/QuantumCircuitMatrix.py:211-214 | `kron(get_ket(k), get_bra(k))` is \|k⟩⟨k\| for k = 0, 1. |
| OuterIdentity.IdentityTerms | src/QuantumCircuitMatrix.py:209-221 | `identity_gate_helper(n)` succeeds exactly for n ≥ 1; below that the recursion never reaches its base. It returns the 2^n projectors \|t⟩⟨t\| in order t = 0 … 2^n - 1. |
| OuterIdentity.RefineEntry | src/QuantumCircuitMatrix.py:218-220 | Entry t of the refined list is q[t / 2] ⊗ \|t % 2⟩⟨t % 2\|. |
| OuterIdentity.RefineProjectors | src/QuantumCircuitMatrix.py:217-221 | Refining the 2^n projectors of size 2^n yields the 2^(n+1) projectors of size 2^(n+1). |
| OuterIdentity.SumProjectors | src/QuantumCircuitMatrix.py:206 | Summing the first `count` projectors gives ones on the first `count` diagonal places. |
| OuterIdentity.IdentityGate | src/QuantumCircuitMatrix.py:196-206 | `identity_gate(n)` fails exactly for n < 1. Otherwise it is 2^n × 2^n. |
| OuterIdentity.IdentityGateIsIdentity | src/QuantumCircuitMatrix.py:509-519 | For n ≥ 1, `identity_gate(n)` equals `identityGate(n)`, the identity of size 2^n. For n < 1 it is a RecursionError. |
| OuterIdentity.IdentityGateConstants | src/QuantumCircuitMatrix.py:226-233 | `identity_gate(1)` and `identity_gate(2)` are the one- and two-qubit identity constants. |
| NotGates.QuantumNot | src/QuantumCircuitMatrix.py:662-687 | 0 qubits give the empty array. n ≥ 1 qubits give a square matrix of size 2^n. |
| NotGates.NotUnfold | src/QuantumCircuitMatrix.py:680-686 | For n ≥ 2 the gate is diag(1,0)⊗I + diag(0,1)⊗(the gate for n - 1). |
| NotGates.QuantumNotIsTransposition | src/QuantumCircuitMatrix.py:662-687 | For n ≥ 1 the gate is the permutation matrix exchanging only 2^n - 2 and 2^n - 1. |
| NotGates.QuantumNotConstants | src/QuantumCircuitMatrix.py:674-679 | The gate for 1 qubit is `Pauli_X_gate` and for 2 qubits is `CNOT_gate`, so the hard-coded branches agree with the recursion. |
| NotGates.QuantumNotAction | src/QuantumCircuitMatrix.py:664-672 | The gate flips the last qubit exactly when every other qubit is 1. |
| NotGates.QuantumNotSelfInverse | src/QuantumCircuitMatrix.py:662-687 | The gate is its own inverse. |
| NotGates.QuantumNotUnitary | src/QuantumCircuitMatrix.py:662-687 | For n ≥ 1 the gate equals its conjugate transpose and is unitary. |
| NotGates.ReverseNot | src/QuantumCircuitMatrix.py:777-803 | 0 qubits give the empty array. n ≥ 1 qubits give a square matrix of size 2^n. |
| NotGates.ReverseNotIsBlockDiag | src/QuantumCircuitMatrix.py:793-802 | For n ≥ 2 the reverse gate is (NOT gate for n - 1) on the first half and I on the second. |
| NotGates.ReverseNotIsTransposition | src/QuantumCircuitMatrix.py:777-803 | For n ≥ 2 the reverse gate exchanges only 2^(n-1) - 2 and 2^(n-1) - 1, because it recurses into the non-reverse gate. |
| NotGates.ReverseNotAction | src/QuantumCircuitMatrix.py:796-802 | The reverse gate flips the last qubit exactly when the first qubit is 0 and all the others are 1. |
| NotGates.ReverseNotOne | src/QuantumCircuitMatrix.py:791-792 | The one-qubit reverse gate is `Pauli_X_gate`, the transposition of 0 and 1. |
| NotGates.ReverseNotSelfInverse | src/QuantumCircuitMatrix.py:777-803 | For every n ≥ 1 the reverse gate is its own inverse, the one-qubit `Pauli_X_gate` included. |
| NotGates.ReverseNotUnitary | src/QuantumCircuitMatrix.py:777-803 | For n ≥ 1 the reverse gate equals its conjugate transpose and is unitary. |
| Registers.MarkAll | src/QuantumCircuitMatrix.py:555-556 | The write loop succeeds exactly when every argument is in [-d, d). Each hit position becomes 1 and the rest keep their values. |
| Registers.GetQubitMatrix | src/QuantumCircuitMatrix.py:522-539 | Succeeds exactly when every argument is in [-2^n, 2^n). The result is 2^n × 2^n, diagonal, and 1 exactly at (a, a) for a selected position a (negative arguments wrap; no arguments select 0). |
| Registers.GetQubitVector | src/QuantumCircuitMatrix.py:542-559 | Same error condition. The result is a 2^n column with 1 exactly at the selected positions. |
| Registers.GetZeroQubitMatrix | src/QuantumCircuitMatrix.py:562-581 | Size 2n. Succeeds exactly when the arguments fit and (there are arguments or n > 0). An odd diagonal entry is 1 exactly when an argument names it. An even entry is 1 exactly when an argument names it, or no argument names its odd partner, or it is entry 0 with no arguments. |
| Registers.GetZeroQubitVector | src/QuantumCircuitMatrix.py:584-603 | The same selection as a 2n column. |
| Registers.GetZeroKetQubitVector | src/QuantumCircuitMatrix.py:606-623 | A 2n column with 1 exactly at the argument positions, or at 0 with no arguments. |
| Registers.MatrixToVector | src/QuantumCircuitMatrix.py:806-817 | A column comes back unchanged. Anything else becomes a column of the same height. |
| Registers.VectorToMatrix | src/QuantumCircuitMatrix.py:820-832 | A square input comes back unchanged. Anything else becomes a diagonal matrix of its height whose diagonal holds the REAL part of each first-column entry, as the float `np.zeros` array keeps it. |
| Registers.FillPairs | src/QuantumCircuitMatrix.py:576-578 | After the pair fill, an even entry 2i becomes 1 exactly when its odd partner 2i+1 is 0; every other entry is kept. |
| Registers.DiagonalToVector | src/QuantumCircuitMatrix.py:813-817 | On a diagonal matrix the row sums are the diagonal: `vector[i][0] == matrix[i][i]`. |
| Registers.VectorMatrixRoundTrip | src/QuantumCircuitMatrix.py:806-832 | A column of height ≥ 2 goes through matrix form and back to the column of its real parts. A column with real entries round-trips exactly. |
| Registers.MatrixVectorRoundTrip | src/QuantumCircuitMatrix.py:806-832 | A diagonal matrix of size ≥ 2 goes through vector form and back to the diagonal of its real parts. A diagonal matrix with a real diagonal round-trips exactly. |
| Registers.QubitVectorToMatrix | src/QuantumCircuitMatrix.py:522-559 | `convert_vector_to_matrix(get_qubit_vector(n, S)) == get_qubit_matrix(n, S)`. |
| AppliedSwap.AppliedSwapGate | src/QuantumCircuitMatrix.py:742-774 | Errors: a column input with no arguments fails in `np.dot`, and fewer columns than rows fails at the diagonal read. A matrix input that succeeds gives a d×d diagonal matrix. |
| AppliedSwap.Apply | src/QuantumCircuitMatrix.py:769-770 | The diagonal carrier is always multiplied by the swapping matrix. A column carrier multiplies exactly when its width is d, and otherwise fails in `np.dot`. |
| AppliedSwap.ExchangedEntry | src/QuantumCircuitMatrix.py:765-768 | The four in-place updates move one unit off (a, a) and (b, b) onto (a, b) and (b, a). |
| AppliedSwap.ExchangedPermutation | src/QuantumCircuitMatrix.py:765-768 | On a permutation matrix that fixes a and b, the updates give the permutation with a and b exchanged. |
| AppliedSwap.LocatePermutation | src/QuantumCircuitMatrix.py:763-764 | On a permutation matrix the guard accepts a pair exactly when both positions are still fixed. It raises IndexError exactly when a position is out of range. |
| AppliedSwap.Locate | src/QuantumCircuitMatrix.py:763-764 | The guard reads position 2·q0+1 first and 2·q1 only when that read is non-zero. A pair it accepts names two in-range positions; its exact verdict on permutation matrices is LocatePermutation. |
| AppliedSwap.SwapPairs | src/QuantumCircuitMatrix.py:758-770 | The pair loop keeps the carrier's kind (diagonal or column), its fit to d and a d×d swapping matrix; its value is given by SwapPairsMaps. |
| AppliedSwap.SwapPairsMaps | src/QuantumCircuitMatrix.py:759-770 | The pair loop on matrices equals the same loop on index maps, step by step, including its errors. |
| AppliedSwap.BlockSwapRow | src/QuantumCircuitMatrix.py:750-757 | The no-argument product of a row with `swap_gate ⊗ I` succeeds exactly when 4 divides the row's length, and keeps the length; its value is given by NoArgumentSwap. |
| AppliedSwap.WrittenSwapGate | src/QuantumCircuitMatrix.py:742-774 | On a matrix input with arguments, the result is the diagonal re-read through the composed index map of the loop as written. |
| AppliedSwap.SingleSwapPair | src/QuantumCircuitMatrix.py:758-774 | With one pair (q0, q1), the result is the input diagonal with entries 2·q0+1 and 2·q1 exchanged, and off-diagonal entries dropped. |
| AppliedSwap.FirstPairErrors | src/QuantumCircuitMatrix.py:763-764 | A first pair whose positions fall outside [-d, d) raises IndexError. |
| AppliedSwap.ColumnShapeError | src/QuantumCircuitMatrix.py:743-770 | A column input of height ≥ 2 with an accepted pair fails in `np.dot`. |
| AppliedSwap.KronSwapPermutation | src/QuantumCircuitMatrix.py:753-757 | `swap_gate ⊗ I_k` is the permutation exchanging the second and third quarter-blocks. |
| AppliedSwap.NoArgumentSwap | src/QuantumCircuitMatrix.py:750-757 | With no arguments, the diagonal's second and third quarters are exchanged. When 4 does not divide d this is a shape error. |
| AppliedSwap.WrittenExampleMaps | src/QuantumCircuitMatrix.py:760-770 | Arguments [0, 1, 2, 3] as written end with the diagonal exchanged only at 3 ↔ 4. |
| AppliedSwap.SwapPairingExample | src/QuantumCircuitMatrix.py:760-762 | Arguments [0, 1, 2, 3] give the 3 ↔ 4 exchange as written, and 1 ↔ 2, 5 ↔ 6 when corrected. |
| AppliedSwap.BuildSwapsMap | src/QuantumCircuitMatrix.py:759-768 | The swapping matrix built over the pairs (args[2t], args[2t+1]) is the permutation matrix of the corresponding index map. |
| AppliedSwap.CorrectedSwapGate | src/QuantumCircuitMatrix.py:729-774 | The same error cases and diagonal shape as the original. |
| AppliedSwap.CorrectedSwapsPermute | src/QuantumCircuitMatrix.py:758-774 | The corrected matrix branch re-reads the diagonal through one involution. |
| AppliedSwap.CorrectedSwapsExchange | src/QuantumCircuitMatrix.py:735-737 | For arguments naming distinct, in-range positions, the corrected gate exchanges the diagonal entries of EVERY pair (2·args[2t]+1, 2·args[2t+1]) and keeps every other entry. |
| ModMult.CAmod15 | CompletedExamples/ShorFactoringAlgorithm.py:61-102 | ValueError exactly for a ∉ {2, 7, 8, 11, 13}, before anything is built. The result is 16×16. |
| ModMult.CAmodb | CompletedExamples/ShorFactoringAlgorithm.py:105-148 | ValueError exactly for a ∉ {2, (b-1)/2, (b-1)/2+1, b-4, b-2}, with the float comparison made exact. The result is 16×16. |
| ModMult.StartIsOrigin | CompletedExamples/ShorFactoringAlgorithm.py:75 | The start register `get_qubit_matrix(4)` is \|0000⟩⟨0000\|. |
| ModMult.SwapKeepsOrigin | CompletedExamples/ShorFactoringAlgorithm.py:78-91 | Every swap the multipliers use leaves \|0000⟩⟨0000\| unchanged, since none touches index 0. |
| ModMult.SwapClearsHollow | CompletedExamples/ShorFactoringAlgorithm.py:93-96 | A swap applied to a matrix with an all-zero diagonal yields the zero matrix, because the gate reads only the diagonal. |
| ModMult.FlipLeading | CompletedExamples/ShorFactoringAlgorithm.py:97-101 | The flip `np.dot(kron(X, I₈), m)` keeps a 16×16 matrix; its value is FlipRows. |
| ModMult.FlipRows | CompletedExamples/ShorFactoringAlgorithm.py:97-101 | `np.dot(kron(X, I₈), m)` re-reads the rows of m with the leading qubit flipped. |
| ModMult.Round | CompletedExamples/ShorFactoringAlgorithm.py:77-101 | One pass of the loop body, the enabled swap blocks then the optional flip, keeps a 16×16 matrix; from the start register its value is RoundsFromOrigin. |
| ModMult.Rounds | CompletedExamples/ShorFactoringAlgorithm.py:77-101 | Any number of passes keeps a 16×16 matrix; the value from the start register is RoundsFromOrigin. |
| ModMult.Multiplier | CompletedExamples/ShorFactoringAlgorithm.py:75-102 | The shared body of both multipliers is 16×16 for every power; its value is MultiplierValue. |
| ModMult.RoundsFromOrigin | CompletedExamples/ShorFactoringAlgorithm.py:77-101 | From the start register, k rounds give: the start again (no flip, or k = 0); \|1000⟩⟨0000\| for k = 1; the zero matrix for k ≥ 2. |
| ModMult.MultiplierValue | CompletedExamples/ShorFactoringAlgorithm.py:75-102 | The same, stated for a power: power ≤ 0 runs no round. |
| ModMult.Amod15Fixed | CompletedExamples/ShorFactoringAlgorithm.py:78-91 | For a ∈ {2, 8}, `c_amod15(a, power)` is \|0000⟩⟨0000\| for every power. |
| ModMult.Amod15Flips | CompletedExamples/ShorFactoringAlgorithm.py:92-101 | For a ∈ {7, 11, 13}: power 1 gives a single 1 at [8][0], and power ≥ 2 gives the zero matrix. |
| ModMult.AmodbValue | CompletedExamples/ShorFactoringAlgorithm.py:118-147 | The same three-way result for every accepted a of `c_amodb`, with the flip decided by independent `if`s. |
| ModMult.AmodbAt15 | CompletedExamples/ShorFactoringAlgorithm.py:105-148 | `c_amodb(a, power, 15) == c_amod15(a, power)` for every a and power, errors included. |
| Numbers.GcdDivides | CompletedExamples/ShorFactoringAlgorithm.py:303-306 | The gcd the loop appends is a positive common divisor. |
| Numbers.GcdGreatest | CompletedExamples/ShorFactoringAlgorithm.py:303-306 | Every common divisor divides the gcd. |
| Numbers.SequentialGcd | CompletedExamples/ShorFactoringAlgorithm.py:305-310 | For an odd cofactor, dividing by gcd(x+1, n) leaves gcd(x-1, ·) unchanged. So the appended gcd(x-1, n) is the divisor applied. |
| Numbers.Isqrt | CompletedExamples/ShorFactoringAlgorithm.py:270 | r² ≤ n < (r+1)². |
| Numbers.IsqrtSquare | CompletedExamples/ShorFactoringAlgorithm.py:270 | `isqrt(n)**2 == n` exactly when n is a perfect square, and isqrt(k²) = k. |
| Numbers.Strip | CompletedExamples/ShorFactoringAlgorithm.py:258-263 | Stripping p from n gives n = p^c · m with m positive and not a multiple of p. |
| Numbers.StripUnique | CompletedExamples/ShorFactoringAlgorithm.py:258-263 | That split is unique. |
| Factoring.Insert | CompletedExamples/ShorFactoringAlgorithm.py:269 | Insertion keeps the list sorted and adds exactly the new element. |
| Factoring.Sort | CompletedExamples/ShorFactoringAlgorithm.py:269 | `sorted` returns a sorted permutation. |
| Factoring.SortSorted | CompletedExamples/ShorFactoringAlgorithm.py:269 | Sorting a sorted list changes nothing. |
| Factoring.WithoutOnes | CompletedExamples/ShorFactoringAlgorithm.py:267-268 | `while 1 in l: l.remove(1)` leaves no 1, keeps every other count, and keeps the product. |
| Factoring.Finish | CompletedExamples/ShorFactoringAlgorithm.py:330-333 | Every return path gives a sorted list with no entry below 2, and product = product of the list × cofactor. The multiset is the list plus the cofactor, with 1s removed. |
| Factoring.Take | CompletedExamples/ShorFactoringAlgorithm.py:307-310 | Dividing by gcd(y, n) leaves a positive divisor d of n with gcd · d = n. |
| Factoring.Pull | CompletedExamples/ShorFactoringAlgorithm.py:300-319 | A successful attempt appends two factors, or four when the period is 2, and keeps every factor already found; what it appends is PullSound. |
| Factoring.PullSound | CompletedExamples/ShorFactoringAlgorithm.py:300-319 | An accepted attempt keeps product × cofactor, keeps the cofactor odd and free of 5, and appends gcd(x+1, n) and gcd(x-1, n), both period == 2 pulls included. |
| Factoring.PullTwo | CompletedExamples/ShorFactoringAlgorithm.py:311-319 | The period == 2 path, with its two extra gcd(guess, ·) pulls, keeps the same invariant. |
| Factoring.SquareSound | CompletedExamples/ShorFactoringAlgorithm.py:270-277 | A square cofactor k² appends k twice and leaves cofactor 1 with the product kept. |
| Factoring.Attempts | CompletedExamples/ShorFactoringAlgorithm.py:264-333 | From any loop state: product × cofactor is kept; the result is sorted and ≥ 2; no 2 or 5 is added; the period function is called at most once per remaining iteration. |
| Factoring.StripPhase | CompletedExamples/ShorFactoringAlgorithm.py:257-263 | num = 2^a · 5^b · rest, with rest odd and not a multiple of 5. |
| Factoring.StripPhaseUnique | CompletedExamples/ShorFactoringAlgorithm.py:257-263 | The strip phase finds exactly the exponents of 2 and 5. |
| Factoring.PrefixCounts | CompletedExamples/ShorFactoringAlgorithm.py:257-263 | The list the strip phase builds holds one 2 per factor of 2, then one 5 per factor of 5. |
| Factoring.ShorClassical | CompletedExamples/ShorFactoringAlgorithm.py:232-333 | For num ≥ 1 the result multiplies back to num, is sorted, holds no 1, holds exactly the stripped 2s and 5s, and calls the period function at most `limit` times. |
| Factoring.DoneExit | CompletedExamples/ShorFactoringAlgorithm.py:265-269 | A cofactor of 1 returns the strip list at once, without calling the period function. |
| Factoring.SquareExit | CompletedExamples/ShorFactoringAlgorithm.py:270-277 | When the loop runs at least once, a square cofactor k² (k ≥ 2) returns the strip list with k, k sorted in, without calling the period function. |
| Factoring.AttemptsOnThree | CompletedExamples/ShorFactoringAlgorithm.py:278-284 | With cofactor 3, `randint(3, 2)` fails on every attempt, so the loop runs out and appends 3. |
| Factoring.ThreeRemains | CompletedExamples/ShorFactoringAlgorithm.py:278-284 | So any num whose cofactor is 3 ends with 3 and no period call. |
| Factoring.Factor100 | CompletedExamples/ShorFactoringAlgorithm.py:257-277 | 100 gives [2, 2, 5, 5]. |
| Factoring.Factor15 | CompletedExamples/ShorFactoringAlgorithm.py:257-284 | 15 gives [3, 5] whatever the oracles do. |

## Left out

- `quantum_Fourier_transform`, `invert_matrix`, `QuantumPeriodFinding` and `qubitFactoringPeriodFinding`: complex exponentials, numeric inversion and floating point.
- `Hadamard_Gate`, `Hadamard_gate`, `H1_gate` and `get_Hadamard_matrix`/`vector`: they involve √2.
- The `+` and `-` symbols of `get_bra`/`get_ket`: they also involve √2. The builders return a `NotExact` error for them instead of a value. Once the positional arguments build, any other character is the ValueError case.
- Basis.GetKet: a `+`/`-` string among the positional arguments stops the model with `NotExact`. The source builds \|+⟩ or \|−⟩ there and goes on, so a later unsupported character, as in `get_ket("+", qubit_string="2")`, raises ValueError in the source but gives `NotExact` in the model.
- Basis.GetBra: the same gap as `GetKet` for a positional `+`/`-` string followed by an unsupported character.
- `bits_to_qubits`: it uses floating `log2`.
- `print_qubits`, `print_truncated_qubits` and the `show_errors` printing: output only.
- `qubitFactoringQiskit`: it calls an external module.
- ndarray arguments of `get_bra`/`get_ket`: they are modelled as any shaped matrix, but only 0/1 strings and integers get basis-vector lemmas.
- Non-integer, non-string arguments converted by `int()`: not modelled.
- The integer ≥ 2 path of `get_bra`: the model builds a ket there, as the source tensors `get_qubit_vector`'s column into the bra. No row/column lemma is claimed for that mix.
- The instance fields set in `__init__`: unused.
- `gcd`, `isqrt` and `period` from the factoring helper module: that module is not part of this model. `Numbers.Gcd` and `Numbers.Isqrt` stand in for the first two, defined from their mathematical meaning. The period function is an oracle returning `None` for its ValueError.
- `randint(3, num - 1)`: an oracle `draw(i, num)`, reduced into [3, num - 1].
- Factoring.Attempts: the source holds the cofactor as a float after `num /=`, and raises `guess ** (period / 2)` as a float. The model uses exact integers. These agree only while the values stay below 2^53, where a double is exact. Float rounding above that, and of large powers below the overflow threshold, is not modelled. OverflowError is modelled as a skipped attempt once the power reaches 2^1024 − 2^970, the first value a double rounds to infinity.
- Factoring.ShorClassical: the strip phase `num /= 2` works on a float, exact only below 2^53. For num = 2^61 + 2 the float halving rounds, and the source returns factors whose product is 2^61, not num. The model divides exactly, so its product promise holds only where the source's floats are exact.
- Factoring.ShorClassical: requires num ≥ 1. For num ≤ 0 the source's strip loop never ends (0), or it behaves as Python's modulo does on negatives; neither is modelled.
- Registers.GetQubitMatrix: like every register helper (`GetQubitVector`, `GetZeroQubitMatrix`, `GetZeroQubitVector`, `GetZeroKetQubitVector`), it takes a natural number of qubits. The source's behaviour on negative counts is not modelled.
- NotGates.QuantumNot, NotGates.ReverseNot: take a natural number of qubits. The source's behaviour on negative counts, an ill-formed `identityGate` with a fractional size, is not modelled.
- OuterIdentity.IdentityTerms: n < 1 is modelled as a RecursionError result rather than Python's recursion-limit exception.
- AppliedSwap.AppliedSwapGate: the column-vector branch is modelled only to its shape error. For a height d ≥ 2, `np.dot` of a d×1 with a d×d never aligns.
- ModMult.CAmodb: `(b-1)/2` is a float in the source. The model compares exactly, which agrees only for b below 2^53. For b = 2^54 + 3 the float rounds to 2^53, so the source accepts a = 2^53 while the model does not. A b too large for a double raises OverflowError, which is not modelled.
- `c_amod15`/`c_amodb` with a power that is not an integer: `range(power)` would raise a TypeError; the model takes an integer power.

## Findings

| source | as written | input that shows it | evidently intended | confidence | as-written member | corrected member |
|---|---|---|---|---|---|---|
| src/QuantumCircuitMatrix.py:760-770 | The pair loop reads `qubit_0 = args[argv]`, `qubit_1 = args[argv+1]`, so consecutive pairs overlap. It also multiplies the running row by the whole swapping matrix built so far after every accepted pair, so earlier exchanges are applied again. | `applied_swap_gate(m, 0, 1, 2, 3)` on a d×d matrix, d ≥ 8: the result exchanges only diagonal entries 3 and 4. | The documentation (lines 735-737) says the swap applies to every pair of two: pairs (args[2t], args[2t+1]), exchanging entries 1 ↔ 2 and 5 ↔ 6, with the finished swapping matrix applied once. | high, not executed | AppliedSwap.SwapPairingExample | AppliedSwap.CorrectedSwapsExchange |
