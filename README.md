# Linear genetic programming engine for ODE right-hand sides

This project models the engine in `ode_net/code/extra_modules/LGP_explicit.py`. The engine is a linear genetic programming search. It fits one output dimension of a trained neural ODE at a time.

- **Individual.** An individual is a flat list of integers. Every four consecutive fields form one register-machine instruction: opcode, destination register, operand 1, operand 2.
- **Registers.** The register file holds the variable registers, then the constant literals, then `data_dim + 1` mirror registers. Data dimension `i` is copied to register `i` and to register `-i - 2`. The time goes to register `data_dim` and to the last register.
- **Opcodes.** Opcodes 0..6 are ADD, SUB, MUL, guarded DIV, SIN, COS and ABS.
  - Guarded DIV writes the sentinel 99999999 where the divisor is zero.
  - Any other opcode changes nothing.
- **Symbolic transcription.** The transcriber runs the same program over expression trees.
- **Evolution.** One generation runs in this order:
  1. It evaluates every individual and tracks the best.
  2. It breeds pairs into `new_population`. Each pair is picked by two tournaments, then crossed over and mutated.
  3. It copies the best individual into the first slots.

## Modules

- **`Draws`.** The random source is an explicit stream of uniform draws in [0, 1).
  - `rand()` is the next draw. `randint(n)` is `Floor(u * n)` of the next draw.
  - Each consuming operation returns the value and the draws left. It returns `Exhausted` when the stream runs out.
- **`Genome`.** Chromosomes, their field roles and the well-formedness every operator keeps.
  - Also `init_population` as nested loops, proved against a specification function.
- **`Interpreter`.** `decode_chromosome` works imperatively on a two-dimensional register array (`array2<real>`).
  - Every row is seeded and then rewritten column by column.
  - It is proved against a per-row functional semantics (`DecodeSpec`).
- **`Transcriber`.** `get_symbolic_expression` works on a list of expression trees.
  - The main lemma says the tree, evaluated on a data row, equals what the decoder returns for that row.
- **`Selection`.** `tournament_select`, with its shrinking entrant arrays.
- **`Operators`.** `crossover` and `mutate`, including the redraw loop of `mutate`.
- **`Evolution`.** One pass of the driver's `while` loop, as a class `Search` over the arrays `population`, `new_population` and `population_fitness`.
  - `insert_best_individual` returns the list it was given. After the first generation that inserts the best individual, `population` and `new_population` are therefore the same list.
  - From then on, a later pass of the breeding loop can pick as a parent a child written by an earlier pass of the same generation.
  - The model keeps this. The two fields may point to the same array, and the specification function `BreedRest` reads the parents from the partly rewritten list in exactly that case.

## Model

| member | source | states |
|---|---|---|
| Draws.RandInt | ode_net/code/extra_modules/LGP_explicit.py:29-32 | a `randint(n)` draw lies in 0..n-1 |
| Genome.RandomInstructions | ode_net/code/extra_modules/LGP_explicit.py:28-38 | `k` instructions need exactly `4k` draws, give `4k` fields and consume exactly those draws |
| Genome.FillIndividual | ode_net/code/extra_modules/LGP_explicit.py:27-38 | the inner loop fills the zeroed list with the fields `RandomInstructions` describes, each drawn in its role's domain |
| Genome.NewIndividual | ode_net/code/extra_modules/LGP_explicit.py:26-38 | one pass of the outer loop draws the instruction count, then the instructions, as `RandomIndividual` says |
| Genome.InitPopulation | ode_net/code/extra_modules/LGP_explicit.py:18-41 | the population loop yields `InitSpec`: `size` individuals appended in draw order, or running out of draws |
| Genome.InitSpecExhausted | ode_net/code/extra_modules/LGP_explicit.py:25-40 | once the draws run out, no longer population can be built |
| Genome.RandomIndividualShape | ode_net/code/extra_modules/LGP_explicit.py:26-38 | every individual is well-formed with 1..max_starting_instructions instructions, and `1 + 4 * max` draws always suffice |
| Genome.InitPopulationShape | ode_net/code/extra_modules/LGP_explicit.py:18-41 | the population has `size` individuals, each well-formed with 1..max_starting_instructions instructions |
| Genome.InitPopulationDraws | ode_net/code/extra_modules/LGP_explicit.py:18-41 | `size * (1 + 4 * max)` draws always suffice and are never exceeded |
| Interpreter.Step | ode_net/code/extra_modules/LGP_explicit.py:69-88 | one instruction changes only the destination column; opcodes 0..6 write their value; any other opcode changes nothing |
| Interpreter.SetColumn | ode_net/code/extra_modules/LGP_explicit.py:54-57 | a column assignment rewrites exactly one column of every row |
| Interpreter.SeedRegisters | ode_net/code/extra_modules/LGP_explicit.py:46-57 | every row of the fresh register matrix is `combined_reg` with the data and time columns written at both ends |
| Interpreter.Execute | ode_net/code/extra_modules/LGP_explicit.py:60-88 | one instruction of the decoder loop rewrites the destination column row by row from the operands' old values, DIV with its zero guard, and leaves everything else alone |
| Interpreter.Decode | ode_net/code/extra_modules/LGP_explicit.py:43-96 | `decode_chromosome` returns column `curr_dim` of the register file after every whole instruction, row by row |
| Interpreter.WellFormedFits | ode_net/code/extra_modules/LGP_explicit.py:60-67 | instructions drawn from the operator and register counts address existing registers, write only variable registers and never read the last column |
| Interpreter.RunPrefix | ode_net/code/extra_modules/LGP_explicit.py:60-67 | two programs that agree on their first `k` instructions leave the same registers after them |
| Interpreter.TrailingFieldsIgnored | ode_net/code/extra_modules/LGP_explicit.py:46-47 | fields past the last whole instruction do not change the result |
| Interpreter.RunAppendInstruction | ode_net/code/extra_modules/LGP_explicit.py:60-88 | appending one instruction adds exactly one step to the run |
| Interpreter.LastInstruction | ode_net/code/extra_modules/LGP_explicit.py:69-88 | the last instruction changes only its destination; DIV by zero gives the sentinel and other DIVs the quotient; unknown opcodes change nothing |
| Interpreter.WriteDataAt | ode_net/code/extra_modules/LGP_explicit.py:53-55 | the seeding loop puts data value `j` in column `j` and column `w - 2 - j` and leaves the others alone |
| Interpreter.SeedLayout | ode_net/code/extra_modules/LGP_explicit.py:49-57 | with `data_dim < num_var_reg` a seeded row is x_0..x_{d-1}, t, zeros, literals, x_{d-1}..x_0, t |
| Interpreter.DecodeNoInstructions | ode_net/code/extra_modules/LGP_explicit.py:49-96 | with no instructions the decoder returns data column `curr_dim`, read through either of its two copies |
| Interpreter.SeedLiteral | ode_net/code/extra_modules/LGP_explicit.py:50-57 | literal registers keep their literal after seeding |
| Interpreter.AddZeroLiteral | ode_net/code/extra_modules/LGP_explicit.py:69-70 | `ADD r0, x_0, 0` reproduces data column 0 exactly |
| Interpreter.DivZeroLiteral | ode_net/code/extra_modules/LGP_explicit.py:75-80 | DIV by the literal 0 yields the sentinel in every row |
| Transcriber.GetSymbolicExpression | ode_net/code/extra_modules/LGP_explicit.py:225-270 | the seeding loop and the opcode chain build `Transcribe`: the symbolic registers after every whole instruction, at `curr_dim` |
| Transcriber.NumAdd | ode_net/code/extra_modules/LGP_explicit.py:249-252 | `+` on two numbers: two finite numbers give their exact sum; once `inf`, `-inf` or `nan` is involved the result is never finite again |
| Transcriber.NumMul | ode_net/code/extra_modules/LGP_explicit.py:253-254 | `*` on two numbers: two finite numbers give their exact product; an infinity or `nan` operand never gives a finite result |
| Transcriber.NumDiv | ode_net/code/extra_modules/LGP_explicit.py:255-256 | `/` on two numbers: finite over finite is the exact quotient, an infinite or `nan` dividend stays non-finite, and a finite number over `inf` or `-inf` is 0 |
| Transcriber.PlusEval | ode_net/code/extra_modules/LGP_explicit.py:249-250 | when the fold does not involve `inf`, `-inf` or `nan`, ADD, folded on two numbers or a node, evaluates to the decoder's sum |
| Transcriber.MinusEval | ode_net/code/extra_modules/LGP_explicit.py:251-252 | with the same proviso, SUB evaluates to the decoder's difference |
| Transcriber.TimesEval | ode_net/code/extra_modules/LGP_explicit.py:253-254 | with the same proviso, MUL evaluates to the decoder's product |
| Transcriber.QuotEval | ode_net/code/extra_modules/LGP_explicit.py:255-258 | with the same proviso, DIV evaluates to the decoder's guarded quotient; the `mpmath.inf` branch agrees with the sentinel |
| Transcriber.UnaryEval | ode_net/code/extra_modules/LGP_explicit.py:259-264 | SIN, COS and ABS nodes evaluate to the decoder's values |
| Transcriber.SymApplyEval | ode_net/code/extra_modules/LGP_explicit.py:249-264 | every opcode's tree evaluates to the decoder's value on the operands' values, unless two numbers, one of them `inf`, `-inf` or `nan`, are folded |
| Transcriber.WriteDataDenotes | ode_net/code/extra_modules/LGP_explicit.py:232-235 | writing the symbols keeps the symbolic registers denoting the numeric ones |
| Transcriber.SeedDenotes | ode_net/code/extra_modules/LGP_explicit.py:230-238 | the symbolic seed denotes the decoder's seed of any data row |
| Transcriber.SymRunDenotes | ode_net/code/extra_modules/LGP_explicit.py:240-264 | running the program keeps the symbolic registers denoting the numeric registers, as long as no instruction folds a non-finite number (`NoSpecialFolding`) |
| Transcriber.TranscribeMatchesDecode | ode_net/code/extra_modules/LGP_explicit.py:225-273 | when no instruction folds a non-finite number, the expression evaluated on row `r` equals `decode_chromosome`'s value for row `r` |
| Transcriber.NoDivisionNoFolding | ode_net/code/extra_modules/LGP_explicit.py:240-264 | a program with no DIV instruction never creates or folds a non-finite number, so the match above holds for it unconditionally |
| Transcriber.InfinityFoldingDiverges | ode_net/code/extra_modules/LGP_explicit.py:249-258 | a concrete two-instruction program for which the transcribed expression is the number 0 (`1 / inf`) while the decoder returns `1 / 99999999`: the match needs its proviso |
| Transcriber.TranscribeNoInstructions | ode_net/code/extra_modules/LGP_explicit.py:230-238 | with no instructions the expression is the symbol `x_curr_dim` |
| Transcriber.SymLastInstruction | ode_net/code/extra_modules/LGP_explicit.py:249-266 | the last instruction changes only its destination register; DIV by an operand equal to 0 gives infinity; unknown opcodes change nothing |
| Transcriber.SymRunPrefix | ode_net/code/extra_modules/LGP_explicit.py:240-247 | programs that agree on their first `k` instructions give the same symbolic registers |
| Selection.ArgMax | ode_net/code/extra_modules/LGP_explicit.py:119 | `np.argmax`: a maximal entry, and the first of them |
| Selection.Remove | ode_net/code/extra_modules/LGP_explicit.py:124-125 | `np.delete` drops exactly entry `i` and shifts the rest down |
| Selection.DrawEntrants | ode_net/code/extra_modules/LGP_explicit.py:109-112 | `tourn_size` entrants need exactly `tourn_size` draws and lie in 0..pop_size-1 |
| Selection.EntrantFitness | ode_net/code/extra_modules/LGP_explicit.py:112 | `selected_fitness[i]` is the fitness of entrant `i` |
| Selection.RunContest | ode_net/code/extra_modules/LGP_explicit.py:114-132 | the shrinking-array loop computes `Contest`: accept the fittest left with probability `tourn_prob`, else strike it; the last one left wins |
| Selection.TournamentSelect | ode_net/code/extra_modules/LGP_explicit.py:103-132 | `tournament_select` computes `Tournament` |
| Selection.ContestWinner | ode_net/code/extra_modules/LGP_explicit.py:117-130 | the winner is an entrant, at most `len - 1` draws are read, and that many always suffice |
| Selection.TournamentInRange | ode_net/code/extra_modules/LGP_explicit.py:103-132 | the selected index is a valid population index; `2 * tourn_size - 1` draws suffice and are never exceeded |
| Selection.SingleEntrant | ode_net/code/extra_modules/LGP_explicit.py:114-132 | with `tourn_size == 1` the single drawn entrant wins with no further draw |
| Selection.AlwaysAcceptFittest | ode_net/code/extra_modules/LGP_explicit.py:117-122 | with `tourn_prob >= 1` the winner is the first entrant of maximal fitness |
| Selection.MinAfterRemove | ode_net/code/extra_modules/LGP_explicit.py:119-125 | a minimum of the entries left after striking a maximum is a minimum of all |
| Selection.NeverAcceptLeast | ode_net/code/extra_modules/LGP_explicit.py:117-130 | with `tourn_prob <= 0` the survivor has minimal fitness among the entrants |
| Operators.CutPoints | ode_net/code/extra_modules/LGP_explicit.py:142-156 | cut points are whole-instruction offsets with lo <= hi <= length; two draws, or none for a parent with no whole instruction |
| Operators.Splice | ode_net/code/extra_modules/LGP_explicit.py:158-164 | a child is the keeper's prefix up to its first cut, then the donor's segment between its cuts, then the keeper's suffix from its second cut, with the length that adds up to |
| Operators.Crossover | ode_net/code/extra_modules/LGP_explicit.py:134-173 | crossover succeeds exactly when the stream holds the two draws per parent with a whole instruction, and consumes exactly those |
| Operators.Truncate | ode_net/code/extra_modules/LGP_explicit.py:166-171 | the result is a prefix of at most `max_length` fields, and is untouched when `max_length <= 0` or already short enough |
| Operators.SpliceConserves | ode_net/code/extra_modules/LGP_explicit.py:158-164 | the two untruncated children hold exactly the parents' fields (as a multiset) and lengths |
| Operators.SpliceField | ode_net/code/extra_modules/LGP_explicit.py:158-164 | each field of a child comes from a parent field of the same role |
| Operators.SpliceWellFormed | ode_net/code/extra_modules/LGP_explicit.py:158-164 | splicing well-formed parents at whole instructions gives a well-formed child |
| Operators.TruncateWellFormed | ode_net/code/extra_modules/LGP_explicit.py:166-171 | truncating at a multiple of 4 keeps a chromosome well-formed |
| Operators.CrossoverProperties | ode_net/code/extra_modules/LGP_explicit.py:134-173 | children within the length bound; untruncated children when the bound is off; lengths conserved; child 1 starts with parent 1; well-formedness kept; 4 draws suffice |
| Operators.Redraw | ode_net/code/extra_modules/LGP_explicit.py:186-200 | a redrawn value lies in the role's domain and differs from the parent's |
| Operators.RedrawValue | ode_net/code/extra_modules/LGP_explicit.py:186-189 | the `while new_val == prev_val` loop computes `Redraw` |
| Operators.MutateChromosome | ode_net/code/extra_modules/LGP_explicit.py:175-202 | `mutate` computes `Mutate` on a copy, field by field |
| Operators.MutateExhausted | ode_net/code/extra_modules/LGP_explicit.py:181-200 | once the draws run out, mutating further fields fails too |
| Operators.MutatePrefixFields | ode_net/code/extra_modules/LGP_explicit.py:181-200 | visited fields keep their value or get a new value of their role's domain; unvisited fields are the parent's |
| Operators.MutateProperties | ode_net/code/extra_modules/LGP_explicit.py:175-202 | mutation keeps the length, changes a field only within its role's domain, and keeps well-formedness |
| Operators.MutateFieldDecision | ode_net/code/extra_modules/LGP_explicit.py:182-190 | a draw at or above `mutate_prob` keeps the field and costs one draw; a draw below it changes the field |
| Operators.NoMutation | ode_net/code/extra_modules/LGP_explicit.py:181-183 | with `mutate_prob <= 0` the copy equals the parent and exactly one draw per field is read |
| Operators.SingleValueDomainNeverEnds | ode_net/code/extra_modules/LGP_explicit.py:186-189 | a role with a single legal value makes the redraw loop never end: on any finite stream it runs out |
| Evolution.EvalScan | ode_net/code/extra_modules/LGP_explicit.py:329-351 | the tracked best fitness is never negative |
| Evolution.Fitnesses | ode_net/code/extra_modules/LGP_explicit.py:331-343 | `population_fitness[i]` is the fitness of individual `i` |
| Evolution.EvalScanMeaning | ode_net/code/extra_modules/LGP_explicit.py:329-351 | if some fitness is positive, the best index is the first of maximal fitness, the error is its inverse and the best total is the max of both; otherwise index 1 and the old error and best total stay |
| Evolution.SelectParents | ode_net/code/extra_modules/LGP_explicit.py:358-363 | both parent indices are valid population indices |
| Evolution.MaybeCross | ode_net/code/extra_modules/LGP_explicit.py:366-372 | a draw above `cross_prob` passes the parents through and costs one draw; otherwise the crossed children never hold more fields than the parents, and well-formed parents give well-formed children |
| Evolution.MutateBoth | ode_net/code/extra_modules/LGP_explicit.py:374-375 | both children keep their lengths, and each well-formed child stays well-formed |
| Evolution.Children | ode_net/code/extra_modules/LGP_explicit.py:358-375 | well-formed parents give well-formed children |
| Evolution.Place | ode_net/code/extra_modules/LGP_explicit.py:376-378 | the children go to slots `i` and, when it exists, `i + 1`; every other slot is unchanged |
| Evolution.BreedPair | ode_net/code/extra_modules/LGP_explicit.py:358-378 | one pass keeps the list size, and writing into a well-formed list from well-formed parents keeps it well-formed |
| Evolution.BreedRest | ode_net/code/extra_modules/LGP_explicit.py:356-378 | the remaining breeding passes keep the population size and give a well-formed list from well-formed lists, aliased or not |
| Evolution.BreedPass | ode_net/code/extra_modules/LGP_explicit.py:356-378 | pass `k` and the passes after it keep the size and well-formedness |
| Evolution.InsertBest | ode_net/code/extra_modules/LGP_explicit.py:204-207 | elitism keeps the population size |
| Evolution.InsertBestIndividual | ode_net/code/extra_modules/LGP_explicit.py:204-207 | the first `num_copies_to_insert` entries of the given array become the best chromosome, the rest stay, and the same array is returned |
| Evolution.InsertBestEntries | ode_net/code/extra_modules/LGP_explicit.py:204-207 | entry `i` of the result is the best chromosome when `i < k` and the old entry otherwise |
| Evolution.Search.constructor | ode_net/code/extra_modules/LGP_explicit.py:317-325 | the set-up: population, a copy of it as `new_population` in a separate array, zero fitness, infinite error, generation 1, best total 0 |
| Evolution.Search.Evaluate | ode_net/code/extra_modules/LGP_explicit.py:329-351 | every fitness is recorded, and the best index, error and best total follow `EvalScan` |
| Evolution.Search.BreedSlot | ode_net/code/extra_modules/LGP_explicit.py:358-378 | one pass of the breeding loop writes slot `i` (and `i + 1`) of `new_population` as `BreedPair` says, reading parents from `population` |
| Evolution.Search.Breed | ode_net/code/extra_modules/LGP_explicit.py:356-378 | the breeding loop computes `Breeding` in place, including when the two lists are one array |
| Evolution.Search.Step | ode_net/code/extra_modules/LGP_explicit.py:327-388 | one pass of the `while` loop computes `Generation` on the state as values |
| Evolution.Conclusion | ode_net/code/extra_modules/LGP_explicit.py:383-388 | after breeding, the sizes stay consistent, the fitness list is the evaluated one, the generation count goes up by one, and aliased lists stay aliased |
| Evolution.Search.Conclude | ode_net/code/extra_modules/LGP_explicit.py:383-388 | the update phase in place: the state afterwards is `Conclusion` of the state before |
| Evolution.PlaceWellFormed | ode_net/code/extra_modules/LGP_explicit.py:376-378 | writing well-formed children into a well-formed list keeps it well-formed |
| Evolution.BreedRestPass | ode_net/code/extra_modules/LGP_explicit.py:356-378 | one pass of the breeding loop is `BreedPair` at slot `2k` followed by the later passes on its result |
| Evolution.BreedRestStep | ode_net/code/extra_modules/LGP_explicit.py:358-378 | one pass is: breed the children, write them at slot `2k`, go on from there |
| Evolution.BreedRestOverwrites | ode_net/code/extra_modules/LGP_explicit.py:356-378 | without aliasing, passes `k` onwards overwrite every slot from `2k` on |
| Evolution.BreedingOverwrites | ode_net/code/extra_modules/LGP_explicit.py:356-378 | without aliasing, the old contents of `new_population` never influence the bred list |
| Evolution.GenerationConsistent | ode_net/code/extra_modules/LGP_explicit.py:327-388 | sizes are kept; once aliased, always aliased; a failed outcome carries the old state; a completed one counts one more generation |
| Evolution.GenerationWellFormed | ode_net/code/extra_modules/LGP_explicit.py:327-388 | well-formed populations stay well-formed through a generation |
| Evolution.GenerationElitism | ode_net/code/extra_modules/LGP_explicit.py:353-383 | with `num_copies_to_insert <= pop_size` the lists become one, and its first slots hold the old individual at the best index, which is the first fittest when some fitness is positive |
| Evolution.GenerationNoElitismKeepsPopulation | ode_net/code/extra_modules/LGP_explicit.py:381-383 | with `num_copies_to_insert > pop_size` and separate lists, `population` is never replaced |
| Evolution.BestIndexPastEnd | ode_net/code/extra_modules/LGP_explicit.py:329-353 | with `pop_size == 1` and no positive fitness, `population[best_indx]` is out of range |

## Left out

- Fitness: `evaluate_individual` (`1 / MSE` against the network's output) and `calc_target` are one caller-supplied function from chromosome to real. A zero MSE (a division by zero in numpy) and NaN fitness values are therefore not modelled.
- Numeric precision: register values are mathematical reals, not float64. Overflow, rounding and NaN are not modelled.
  - The `np.isnan` and `== np.nan` checks only print, so they are left out.
  - `np.sin` and `np.cos` are parameters (`Trig`), since their definitions are outside the model.
- Register dtype: the model assumes the register matrix is a float matrix, as it is with the driver's literals (they include 0.1). With integer-only literals numpy would build an integer matrix and truncate the data.
- Symbolic algebra: `sympy`'s automatic canonicalisation and the final `simplify` are left out.
  - sympy turns `x - x` into `0`, for example. The model keeps the unsimplified tree. It folds exactly what Python folds: two plain numbers, and `mpmath.inf` with a number by `mpmath`'s rules (`1 / inf` is 0, `inf - inf` and `inf * 0` are `nan`).
  - So an operand that sympy would reduce to `0` takes the DIV branch in the model instead of the `inf` branch. Both evaluate to the decoder's sentinel.
  - sympy also absorbs `mpmath.inf` into a symbolic tree (`x + inf` becomes `oo`, for example). The model keeps such a tree as a node. Its value then follows the decoder's sentinel arithmetic, which is why `TranscribeMatchesDecode` is stated only for runs that fold no non-finite number.
- Transcriber.TranscribeMatchesDecode: does not promise the match when an instruction folds `inf`, `-inf` or `nan` with a number. There the decoder computes with the finite sentinel and the transcriber with a true infinity, and `InfinityFoldingDiverges` shows that the two disagree.
- Output: printing, colouring, `argparse`, loading the network, the `decoded_pop` record, and the expression printed when a new best is found are left out. None of them affect the search state.
- Randomness: NumPy's generator is replaced by the draw stream.
  - A finite stream can run out, which the source cannot; every operation reports that as `Exhausted`.
  - `randint(n + 1, size=2)` reads two draws.
  - `int(rand() * pop_size)` and `randint(n)` are both `Floor(u * n)`.
- Outer loop: the `while error > target_error` condition, the loop over output dimensions, and the final expression after the loop are not modelled. `Search.Step` is one pass of the loop body.
- Empty inputs: with no data rows numpy builds a one-dimensional `reg_mat`, and the decoder's column assignments raise `IndexError` (`LGP_explicit.py` lines 54-57). `DecodeInput` requires at least one row instead of modelling that error.
  - `pop_size == 0` stops the first generation with an `IndexError` on `population[best_indx]` (`LGP_explicit.py` line 354). `Config.Valid` requires `pop_size >= 1` instead of modelling that error.
  - `max_starting_instructions == 0` makes `randint(1, 1)` raise (`LGP_explicit.py` line 26). `InitPopulation` and the other initialisation members require it to be at least 1.
- `tourn_size == 0`: the source then uses undefined parent indices on the first generation (a `NameError`). The model requires `tourn_size >= 1` (`Config.Valid`).
- Empty domains: `np.random.randint(0)` raises, so `num_operators` and `num_var_reg` are required to be at least 1.
- Shape errors: decoding a program whose register indices are out of range raises `IndexError` in numpy. `Decode` requires `Fits` instead, and `WellFormedFits` shows that every chromosome the engine builds satisfies it.
- Evolution.Search.Step: on a generation that runs out of draws or stops on the best index, the state after the call is not stated (the source would have stopped with an exception). Only the outcome is.
