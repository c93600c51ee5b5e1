# A verified model of xacc-ibm

xacc-ibm is the IBM back end of XACC: it turns gate circuits into OpenQASM 2.0 programs, turns OpenQASM
source back into circuits, adapts circuits to the coupling of a device, and decodes the measurement counts
that come back. This project models those five parts in Dafny and proves what they keep and, where they
do not keep it, exactly when.

| part of the repository | modules |
|---|---|
| the gate IR and what circuits mean | `GateIR`, `Amplitudes`, `Quantum` |
| CNOT direction rewriting | `CnotReversal` (as functions), `IBMIRTransformation` (the in-place edit), `NestedKernels` (kernels that call kernels) |
| IR to OpenQASM 2.0 | `Emission`, `Registers`, `OpenQasm` (statements and their meaning), `TranslationMeaning`, `OpenQasmText`, `OperationsJson`, `WrittenForms`, `TextAndJson`, `OpenQasmVisitor`, `OQASMCompiler`; `Lexing` and `Json` read the two texts |
| OpenQASM to IR | `ExpParser` (parameter expressions), `OQASMListener`, `SourceMeaning` (what source gates mean), `RoundTrip` |
| measurement decoding | `KernelWalk`, `BitStrings`, `Histograms`, `Outcomes`, `JobText`, `IBMAccelerator`, `LocalIBMAccelerator` |

States are amplitudes over bit strings of length n, with complex numbers as pairs of reals. An
interpretation of angles (`Trig`) gives every angle a the value e^(ia/2); only the four angles that the
translators write as constants have fixed values. A measurement projects on an outcome that an oracle
supplies, so a statement about all oracles is one about all outcomes. The meaning of OpenQASM statements is
that of Table 1 of arXiv:1707.03429, with the gate definitions of qelib1.inc.

Code that changes state is modelled by classes and loops (`Transformation`, `Parser`, `Visitor`, `Listener`
and the two `Accelerator` classes), each method proved against a function of its input or old state; the
lemmas then say what those functions keep. The iterator over a kernel is the pre-order walk of its leaves.

What the proofs found, each as a theorem:

- On flat kernels the in-place CNOT edit is the intended rewriting exactly if no disabled instruction stands
  before an uncoupled CNOT (`EditIsRewriteIffAligned`); otherwise a gate can be lost
  (`MisalignmentLosesGate`). With calls, the visited CNOT is the instruction at the index exactly under the
  condition of `FoundIffTreeAligned`, and never inside a called kernel.
- The statement written for Y is not a Y under any global phase, and Y is the only such gate
  (`GateKeptIffNotY`). Two of them do make two Ys (`TwoEmittedYsAreTwoYs`).
- A conditional tests the register of the qubit's last measurement exactly under the condition of
  `RegisterIsLastIff`, which is what decides the main theorem's circuits (`TranslatableIffKept`); on a qubit
  never measured it tests register c0.
- The operation list of a kernel parses exactly if it has an operation and its parameter texts are JSON
  literals: a lone closing bracket or a named parameter makes the parse fail (`ReadOpsInvertsIff`,
  `PreparableIff`, `NamedParameterIsNotPreparable`). Guarded operations are missing from it
  (`OutputsAgreeIff`).
- Qubits used only inside conditionals can be emitted outside the declared register (`QubitsAreDeclared`).
- A decoded string shows every qubit's own outcome exactly if the qubits were measured in increasing order
  (`ExecutedOutcomesShownIff`).
- A job of one kernel is recorded without scattering, trimming or masking (`SingleKernelAgreesIff`). Buffers
  carry their own names exactly under the condition of `NamesAreOwnIff`, so not those of most later jobs
  (`SecondJobIsMisnamed`).
- A job that fails leaves its measured qubits in the table; later jobs are decoded with their own qubits
  exactly if nothing was left for their kernel numbers (`OwnSupportsAfterRunIff`).
- Conditionals compiled from OpenQASM lose their conditions (`ConditionalComesBackUnconditional`,
  `ErasingChangesMeaning`), and the grammar makes a sum bind tighter than a product (`SumBindsTighter`), which
  the evaluated text does not notice (`EvaluatedTextIgnoresLevels`).

## Model

| member | source | states |
|---|---|---|
| Quantum.ReversedControlled | accelerator/IBMIRTransformation.cpp:54-80 | H H CNOT(t,s) H H equals CNOT(s,t) on every state of n qubits |
| Quantum.SwapIsThreeControlled | utils/OpenQasmVisitor.hpp:235-240 | three CNOTs of alternating direction exchange the two qubits in every state |
| Quantum.UIsZYZ | utils/OpenQasmVisitor.hpp:159-168 | the matrix used for U(theta, phi, lambda) is the product Rz(phi) Ry(theta) Rz(lambda) of the standard |
| CnotReversal.EditIsRewriteIffAligned | accelerator/IBMIRTransformation.cpp:17-43 | on flat kernels the edit driven by a moving index gives the kernel with every uncoupled CNOT replaced where it stands if and only if no disabled instruction precedes an uncoupled CNOT |
| CnotReversal.MisalignmentLosesGate | accelerator/IBMIRTransformation.cpp:24-40 | a kernel in which the edit removes an X gate and leaves the disabled CNOT behind |
| CnotReversal.EditAfterPrefix | accelerator/IBMIRTransformation.cpp:17-43 | at every step the kernel is the rewritten prefix and the untouched rest, and the index is the length of the rewritten prefix |
| CnotReversal.EnabledKernel | accelerator/IBMIRTransformation.cpp:17-43 | a kernel without disabled instructions is rewritten as intended and holds no disabled instruction afterwards |
| CnotReversal.RewriteLength | accelerator/IBMIRTransformation.cpp:26-37 | the kernel grows by four instructions for each uncoupled CNOT |
| CnotReversal.CoupledIffConnected | accelerator/IBMIRTransformation.cpp:60-89 | afterwards every enabled CNOT is coupled in its own direction if and only if before each was coupled in one of its directions |
| CnotReversal.IdempotentIffConnected | accelerator/IBMIRTransformation.cpp:60-89 | a second transformation changes nothing if and only if every enabled CNOT was coupled in one of its directions |
| CnotReversal.RewriteKeepsMeaning | accelerator/IBMIRTransformation.cpp:54-80 | for every coupler list, initial state and sequence of outcomes the rewritten kernel ends in exactly the same state and record |
| NestedKernels.FoundIffTreeAligned | accelerator/IBMIRTransformation.cpp:19-43 | with calls: every uncoupled CNOT is the kernel's instruction at the index when it is visited, as the comment at lines 66-68 claims, if and only if no called kernel has one and before each the enabled instructions, counted through calls, are as many as the nodes; the kernel is then the intended rewriting |
| NestedKernels.FlatTreeAligned | accelerator/IBMIRTransformation.cpp:17-43 | on flat kernels that condition is the one under which the edit is the intended rewriting |
| NestedKernels.NestedCnotIsNotFound | accelerator/IBMIRTransformation.cpp:24-37 | the uncoupled CNOT of a called kernel is not the instruction at the index |
| NestedKernels.CallOfOneIsAligned | accelerator/IBMIRTransformation.cpp:24-40 | after a call of one enabled instruction the index is right again |
| IBMIRTransformation.Transformation.IsCouplingAvailable | accelerator/IBMIRTransformation.cpp:82-89 | true if and only if the ordered pair is in the coupler list |
| IBMIRTransformation.Transformation.Visit | accelerator/IBMIRTransformation.cpp:54-80 | an uncoupled CNOT is disabled and its five-instruction replacement is pending; a coupled one is untouched |
| IBMIRTransformation.Transformation.Splice | accelerator/IBMIRTransformation.cpp:27-37 | the pending instructions stand in order where one instruction stood, and the index is on the last of them |
| IBMIRTransformation.Transformation.VisitNext | accelerator/IBMIRTransformation.cpp:24-41 | one enabled instruction: what happens to the kernel, the index and the visited object, also when the index has fallen behind |
| IBMIRTransformation.Transformation.WalkOne | accelerator/IBMIRTransformation.cpp:20-43 | one iteration of the walk keeps the relation between snapshot, kernel, index and what is still to be done |
| IBMIRTransformation.Transformation.TransformKernel | accelerator/IBMIRTransformation.cpp:17-43 | the kernel's contents become the edit of its old contents, and the intended rewriting when aligned; exactly the uncoupled CNOT objects are disabled |
| IBMIRTransformation.Transformation.Transform | accelerator/IBMIRTransformation.cpp:7-52 | every kernel of the IR is edited as if it were alone, and the same kernel objects are returned in order |
| Emission.VisitAllConcat | utils/OpenQasmVisitor.hpp:173-203 | visiting two lists in turn is visiting their concatenation: text, operations, counter and map carry over, and an error ends it |
| Emission.VisitAllAcceptsIff | utils/OpenQasmVisitor.hpp:110-203 | the visitor accepts a circuit, in any state, if and only if it has no CZ and every conditional has at most one instruction, of the same kind, as its body |
| TranslationMeaning.GateMatrix | utils/OpenQasmVisitor.hpp:94-230 | the statement written for a one-qubit gate other than Y applies the gate's matrix times a stated phase |
| TranslationMeaning.EmittedYIsNotY | utils/OpenQasmVisitor.hpp:140-146 | no phase makes u3(pi, pi/2, pi) the Pauli Y |
| TranslationMeaning.TwoEmittedYsAreTwoYs | utils/OpenQasmVisitor.hpp:140-146 | two statements written for Y have, up to a phase, the effect of two Ys |
| TranslationMeaning.GateKeptIffNotY | utils/OpenQasmVisitor.hpp:94-230 | the statement written for a one-qubit gate has the gate's effect up to a global phase if and only if the gate is not Y |
| TranslationMeaning.VisitCond | utils/OpenQasmVisitor.hpp:187-203 | a conditional around one gate becomes the guard on the looked-up register and the gate's statement, and leaves an entry for its qubit |
| TranslationMeaning.TranslationAgrees | utils/OpenQasmVisitor.hpp:94-240 | simulation: from agreeing machines the visitor accepts the circuit, the emitted pieces run without error and the machines agree again |
| TranslationMeaning.TranslationKeepsMeaning | utils/OpenQasmVisitor.hpp:94-240 | for every kept circuit, state and outcomes the emitted program ends in the circuit's state up to a global phase, with one register per measurement holding its outcome and every qubit's last outcome in a known register |
| TranslationMeaning.TranslatableIffKept | utils/OpenQasmVisitor.hpp:94-240 | the simulation's condition on the visitor's map holds if and only if the circuit has only kept instructions and every conditional comes after exactly one measurement of its qubit, and after no test of it before that unless that measurement is the first of all |
| TranslationMeaning.SingleMeasurementsAreKept | utils/OpenQasmVisitor.hpp:173-203 | circuits that measure no qubit twice and test only qubits already measured are kept |
| TranslationMeaning.RegisterIsLastIff | utils/OpenQasmVisitor.hpp:178-190 | a later conditional on a qubit tests the register of its last measurement if and only if the qubit was measured once and was not tested before that, or that was the first measurement of all |
| TranslationMeaning.SecondMeasurementIsNotTested | utils/OpenQasmVisitor.hpp:178-190 | for a qubit measured twice a conditional tests the first register though the last outcome is in the second |
| TranslationMeaning.UnmeasuredTestsFirstRegister | utils/OpenQasmVisitor.hpp:190 | a conditional on a qubit never measured tests register c0 |
| Registers.RegistersInOrderIff | utils/OpenQasmVisitor.hpp:173-203 | over any accepted visit run the registers are declared as c0, c1, ..., each once and before any use, if and only if every conditional comes after some measurement and none measures in its body; they are then as many as the counter says |
| Registers.TestBeforeMeasurement | utils/OpenQasmVisitor.hpp:187-203 | a conditional before any measurement uses an undeclared register |
| Registers.MeasurementInside | utils/OpenQasmVisitor.hpp:173-203 | a measurement inside a conditional declares a register twice |
| OpenQasmText.ReadTextInvertsText | utils/OpenQasmVisitor.hpp:94-240 | reading the written text, character by character, gives back exactly the statements and guards written |
| WrittenForms.GateIsWritten | utils/OpenQasmVisitor.hpp:94-230 | the characters written for every gate |
| WrittenForms.OthersAreWritten | utils/OpenQasmVisitor.hpp:173-192 | the characters written for a register, a measurement and a guard |
| WrittenForms.GateOpIsWritten | utils/OpenQasmVisitor.hpp:94-230 | the characters of every gate's JSON entry |
| WrittenForms.MeasureOpIsWritten | utils/OpenQasmVisitor.hpp:179-180 | the characters of a measurement's JSON entry |
| Lexing.LexInvertsConcat | utils/OpenQasmVisitor.hpp:94-240 | splitting text at delimiters gives back the tokens it was written from |
| Lexing.NumeralInvertsDec | utils/OpenQasmVisitor.hpp:94-240 | reading a printed number gives the number |
| Json.ParseInvertsPrint | utils/OpenQasmVisitor.hpp:252-254 | parsing a printed value gives the value and leaves the tokens after it if all its literals are numbers, true, false or null, and fails otherwise |
| Json.NotLiterals | accelerator/LocalIBMAccelerator.cpp:136 | texts with a plus sign, a leading zero or a leading point are no JSON literals |
| OperationsJson.ReadOpsInvertsIff | utils/OpenQasmVisitor.hpp:252-254 | the operation string parses, and then to the operations emitted, if and only if at least one was emitted and every parameter text is a JSON literal |
| OperationsJson.JsonAngleLiteral | utils/OpenQasmVisitor.hpp:94-230 | the constants are written as JSON literals, and a parameter is one exactly if its text is |
| TextAndJson.JsonOpsAreTextOpsIff | utils/OpenQasmVisitor.hpp:94-240 | the JSON list has the operations of the text if and only if no conditional guards a statement, and never more |
| TextAndJson.VisitsLiteralIff | utils/OpenQasmVisitor.hpp:94-240 | which circuits emit operations and which emit only literal parameters, decided from their instructions outside conditionals |
| TextAndJson.OutputsAgreeIff | utils/OpenQasmVisitor.hpp:248-254 | parsing the JSON string gives what reading the text gives if and only if an instruction outside conditionals emits an operation, the parameter texts there are JSON literals, and no conditional guards a statement |
| OpenQasmVisitor.Visitor.constructor | utils/OpenQasmVisitor.hpp:80-85 | a new visitor holds the preamble, or nothing, and no registers |
| OpenQasmVisitor.Visitor.VisitGate | utils/OpenQasmVisitor.hpp:94-230 | a gate appends its one statement to the text and the same operation to the list |
| OpenQasmVisitor.Visitor.VisitSwap | utils/OpenQasmVisitor.hpp:235-240 | a swap appends three CNOTs to both outputs |
| OpenQasmVisitor.Visitor.VisitMeasure | utils/OpenQasmVisitor.hpp:173-182 | a measurement declares and writes the next register; a qubit's first register stays in the map |
| OpenQasmVisitor.Visitor.VisitConditional | utils/OpenQasmVisitor.hpp:187-203 | a conditional appends the guard and its body as a fresh visitor writes it, to the text only, or is an error and appends nothing |
| OpenQasmVisitor.Visitor.Accept | utils/OpenQasmVisitor.hpp:94-240 | an instruction is accepted if and only if it is supported, and then appends exactly its emission |
| OpenQasmVisitor.Visitor.AcceptAll | compiler/OQASMCompiler.cpp:94-100 | a walk is accepted if and only if all its instructions are supported, and then appends exactly the emission of the list |
| OpenQasmVisitor.Visitor.GetOpenQasmString | utils/OpenQasmVisitor.hpp:248-250 | the text is the preamble and what reads back as the emitted pieces |
| OpenQasmVisitor.Visitor.GetOperationsJsonString | utils/OpenQasmVisitor.hpp:252-254 | the string parses to the emitted operations if and only if there are any and their parameters are JSON literals, and does not parse otherwise |
| OQASMCompiler.InliningCall | compiler/OQASMCompiler.cpp:93-101 | putting a called kernel's body in place of the call, anywhere, changes nothing of the translation |
| OQASMCompiler.TranslationOfInlined | compiler/OQASMCompiler.cpp:75-101 | a kernel is translated like its fully inlined gate list |
| OQASMCompiler.QubitsAreDeclared | compiler/OQASMCompiler.cpp:77-101 | every emitted qubit index is below the declared register size if and only if those inside conditional bodies are at most the largest index outside them |
| OQASMCompiler.GuardedQubitIsUndeclared | compiler/OQASMCompiler.cpp:77-101 | a guarded gate on a larger qubit than all others is emitted outside the declared register |
| OQASMCompiler.AllFitDeclared | compiler/OQASMCompiler.cpp:79-91 | without conditionals every instruction acts inside the declared register |
| OQASMCompiler.HighestQubit | compiler/OQASMCompiler.cpp:77-90 | the scanned number is at least every qubit of every enabled instruction, and is one of them or 0 |
| OQASMCompiler.DeclaredSizeIs | compiler/OQASMCompiler.cpp:77-91 | the declared size is that of the smallest register, of at least one qubit, that holds every qubit of the enabled instructions |
| OQASMCompiler.RegisterSizeIsUnique | compiler/OQASMCompiler.cpp:77-91 | there is only one such size |
| OQASMCompiler.ConditionalsAreNotCounted | compiler/OQASMCompiler.cpp:83-90 | a conditional adds nothing to the declared size |
| OQASMCompiler.Translate | compiler/OQASMCompiler.cpp:75-102 | translation succeeds if and only if every enabled instruction is supported, and returns the preamble for the smallest register that holds their qubits and the text of the walk's emission |
| OQASMCompiler.TranslatedTextKeepsMeaning | compiler/OQASMCompiler.cpp:75-102 | end to end: the statements read from the translated text, run on the declared register, give the kernel's state up to a phase and every qubit's last outcome |
| ExpParser.ParseReachesTree | compiler/generated/OQASM2Parser.cpp:2678-2760 | on the tokens of a tree that obeys the levels, exp(p) comes to its loop with exactly that tree built |
| ExpParser.ParseIsGood | compiler/generated/OQASM2Parser.cpp:2597-2768 | whatever exp(p) accepts, its tree flattens to the consumed tokens, obeys the levels, and the next token does not continue it |
| ExpParser.ParseInvertsFlatten | compiler/generated/OQASM2Parser.cpp:2682-2760 | a tree is returned from its own tokens if and only if it obeys the levels and is tight enough for p |
| ExpParser.ObeyingTreesAreUnique | compiler/generated/OQASM2Parser.cpp:2682-2760 | two trees that obey the levels and have the same tokens are the same |
| ExpParser.EvaluatedTextIgnoresLevels | compiler/OQASMToXACCListener.cpp:67-74 | the text evaluated for a parameter is the text of its tokens, whatever the levels made of them |
| ExpParser.SumBindsTighter | compiler/generated/OQASM2Parser.cpp:2693-2722 | 1 + 2 * 3 is grouped as (1 + 2) * 3 |
| ExpParser.Groupings | compiler/generated/OQASM2Parser.cpp:2693-2743 | how each neighbouring pair of levels groups: sums first, then differences, products, quotients and powers |
| ExpParser.LeftGroupings | compiler/generated/OQASM2Parser.cpp:2693-2743 | every operator is grouped from the left with itself |
| ExpParser.MinusGroupings | compiler/generated/OQASM2Parser.cpp:2640-2646 | a prefix minus takes in a quotient but not a power |
| ExpParser.Parser.Primary | compiler/generated/OQASM2Parser.cpp:2615-2677 | the switch on the next token, against its specification function |
| ExpParser.Parser.Closed | compiler/generated/OQASM2Parser.cpp:2655-2669 | an expression and its closing parenthesis |
| ExpParser.Parser.Exp | compiler/generated/OQASM2Parser.cpp:2597-2768 | the recursive method with its loop gives the tree and position of its specification function, and terminates |
| OQASMListener.TableIsFirst | compiler/OQASMToXACCListener.cpp:76-86 | while kernel j is compiled, the table holds exactly the names of kernels 0 to j, each with its first definition |
| OQASMListener.CallsMeanFirstDefinition | compiler/OQASMToXACCListener.cpp:76-101 | kernel j calls kernel k if and only if its source calls that name and k is the first definition of it, at or before j |
| OQASMListener.CallsGoBackIff | compiler/OQASMToXACCListener.cpp:76-101 | all calls go to strictly earlier kernels if and only if no first definition calls its own name |
| OQASMListener.WalkIsInlined | compiler/OQASMToXACCListener.cpp:93-101 | with calls going back, inlining terminates and the walk of the kernel tree visits the inlined gates in order |
| OQASMListener.BodyCompilesIff | compiler/OQASMToXACCListener.cpp:93-118 | a body compiles if and only if its U gates have their parameters, every gate is one the registry knows and every called name is known |
| SourceMeaning.CompiledMeansSource | compiler/OQASMToXACCListener.cpp:103-194 | the instruction compiled for every U, CX, gate of qelib1.inc among h, x, y, z, id, rx, ry, rz, u1, u2, u3 and cx, and measurement does to every state what OpenQASM 2.0 says, up to a global phase |
| SourceMeaning.BuiltInsAre | compiler/OQASMToXACCListener.cpp:103-194 | U keeps its first three angles in order, CX its control and target, a measurement its qubit and its classical index |
| SourceMeaning.NamedGateArguments | compiler/OQASMToXACCListener.cpp:130-182 | a named gate keeps its qubits in order, its parameters in order after the angles that u1 and u2 fix, and its name with a capital; cx becomes CNOT |
| OQASMListener.Listener.EnterXacckernel | compiler/OQASMToXACCListener.cpp:76-86 | a new empty kernel is current, and registered unless its name is taken |
| OQASMListener.Listener.ExitXacckernel | compiler/OQASMToXACCListener.cpp:88-91 | the current kernel is added to the result |
| OQASMListener.Listener.AddInstruction | compiler/OQASMToXACCListener.cpp:93-194 | one instruction is appended to the current kernel, no other kernel changes |
| OQASMListener.Listener.ExitConstruct | compiler/OQASMToXACCListener.cpp:93-194 | a construct appends exactly what it compiles to, or is an error and appends nothing |
| OQASMListener.Listener.WalkKernel | compiler/OQASMToXACCListener.cpp:76-194 | one kernel of the source is compiled with the table that includes its own name |
| OQASMListener.Listener.WalkSource | compiler/OQASMToXACCListener.cpp:76-194 | the source compiles if and only if every kernel does, and gives them all in order |
| RoundTrip.GateComesBack | compiler/OQASMToXACCListener.cpp:130-182 | the statement written for a gate is compiled to one U with the angles of the standard's definition, or to the same CNOT |
| RoundTrip.IdentityComesBackIff | compiler/OQASMToXACCListener.cpp:130-182 | the printed identity gate is compiled, to a gate named Id, if and only if the registry has a gate of that name |
| RoundTrip.PrintThenCompile | compiler/OQASMToXACCListener.cpp:103-194 | printing and compiling gives only U, CNOT and Measure, on the same qubits in order, a swap as three CNOTs and every Measure with index 0 |
| RoundTrip.SecondRoundTripChangesNothing | compiler/OQASMToXACCListener.cpp:103-194 | printing and compiling what came back gives the same again |
| RoundTrip.RoundTripKeepsMeaning | compiler/OQASMToXACCListener.cpp:103-194 | what comes back runs like the original, with the same outcomes and the same state up to a global phase |
| RoundTrip.ConditionalComesBackUnconditional | compiler/OQASMToXACCListener.cpp:130-182 | every circuit comes back as the circuit in which the conditions are erased |
| RoundTrip.ErasingChangesMeaning | compiler/OQASMToXACCListener.cpp:130-182 | a circuit and outcomes for which erasing the condition gives another state under any global phase |
| BitStrings.SortSorts | accelerator/LocalIBMAccelerator.cpp:234 | sorting gives an ascending permutation |
| BitStrings.DecodeSimulator | accelerator/LocalIBMAccelerator.cpp:229-243 | the scatter loop computes the decoding of one outcome |
| BitStrings.ScatterIsExact | accelerator/IBMAccelerator.cpp:603-621 | the k-th bit from the right stands at the k-th smallest supported qubit, '0' everywhere else, and gathering the supported positions gives the outcome back |
| BitStrings.DecodesInjectivelyIff | accelerator/LocalIBMAccelerator.cpp:229-243 | different outcomes are decoded differently if and only if no qubit was measured twice |
| BitStrings.DecodeKeepsOnes | accelerator/IBMAccelerator.cpp:603-621 | decoding keeps the number of ones |
| BitStrings.ShowsOwnOutcomesIff | accelerator/LocalIBMAccelerator.cpp:229-243 | the decoded string shows each measured qubit's own outcome, for all outcomes, if and only if the qubits were measured in increasing order |
| BitStrings.TrimAndMask | accelerator/IBMAccelerator.cpp:626-644 | the loops keep the last bits and, of them, exactly those of measured qubits |
| BitStrings.MaskIsIdempotent | accelerator/IBMAccelerator.cpp:632-644 | masking a second time changes nothing |
| BitStrings.MaskedOnes | accelerator/IBMAccelerator.cpp:626-644 | the ones left are those of the raw outcome at measured qubits of the buffer |
| Histograms.SumAppend | accelerator/IBMAccelerator.cpp:651 | appending n occurrences adds n times the outcome's weight to any weighted sum |
| Histograms.CollectedSum | accelerator/IBMAccelerator.cpp:583-651 | any weighted sum over the histogram is the sum over the raw counts of the weight of the decoded outcome, even when outcomes merge |
| Histograms.CollectedImage | accelerator/LocalIBMAccelerator.cpp:222-247 | if no two outcomes decode alike, each decoded outcome gains its raw count and no other count changes |
| KernelWalk.WalkKernel | accelerator/LocalIBMAccelerator.cpp:106-118 | the walk emits the kernel's translation and appends the qubits it measures in walk order, also when it ends in an error |
| KernelWalk.EndsAtUnsupported | accelerator/IBMAccelerator.cpp:387-397 | a walk ends at the first instruction that is not supported |
| KernelWalk.AfterInputEntries | accelerator/IBMAccelerator.cpp:384-397 | preparing a job appends each kernel's measured qubits to what the table held for its number and changes nothing else |
| KernelWalk.OwnSupportsIff | accelerator/IBMAccelerator.cpp:384-397 | every kernel has exactly its own measured qubits if and only if nothing was left over for its number |
| KernelWalk.OwnSupportsAfterRunIff | accelerator/IBMAccelerator.cpp:368-410 | after any run of jobs, failed ones included, a job has exactly its own kernels' measured qubits if and only if no job since the last clear recorded a qubit for one of its kernel numbers |
| KernelWalk.FailedJobDoublesSupports | accelerator/LocalIBMAccelerator.cpp:99-118 | a kernel that is prepared again after a job that was never decoded has its qubits listed twice |
| KernelWalk.EmptyGivesTable | accelerator/IBMAccelerator.cpp:384-397 | from an empty table a job gets one entry per kernel with its measured qubits in order |
| KernelWalk.MeasurementsAreNumbered | utils/OpenQasmVisitor.hpp:173-182 | the k-th measured qubit of the walk is measured into classical bit k |
| KernelWalk.OwnOutcomesIffInOrder | accelerator/LocalIBMAccelerator.cpp:217-243 | the table lists the qubits in the order of their classical bits, and bits in that order are decoded to their own qubits, for all outcomes, if and only if the circuit measures in increasing qubit order |
| Outcomes.ShowsRecordIff | accelerator/LocalIBMAccelerator.cpp:217-243 | for one run of the emitted program, decoding its registers shows the recorded outcome of every measured qubit if and only if the scatter puts each outcome at its qubit |
| Outcomes.ExecutedOutcomesShownIff | accelerator/LocalIBMAccelerator.cpp:217-243 | end to end: running the emitted program and decoding its registers shows every measured qubit's recorded outcome, whatever the outcomes, if and only if the circuit measures in increasing qubit order |
| KernelWalk.SupportsFollowJobs | accelerator/IBMAccelerator.cpp:368-410 | if every job was decoded, the table is empty between jobs and a waiting job has exactly its own measured qubits |
| IBMAccelerator.NamesAreStale | accelerator/IBMAccelerator.cpp:408 | whatever jobs came before, failed ones included, the names they left come first and are the ones a later job's buffers take |
| IBMAccelerator.NamesAreOwnIff | accelerator/IBMAccelerator.cpp:408 | all buffers of a job carry its own kernels' names if and only if its names are a prefix of all names so far, its own last |
| IBMAccelerator.SecondJobIsMisnamed | accelerator/IBMAccelerator.cpp:408 | after one decoded job, the buffers of a second one that is no longer carry the first job's names |
| IBMAccelerator.FailedKernelIsNotNamed | accelerator/IBMAccelerator.cpp:387-408 | a job that fails at a kernel leaves the names of the kernels before it and not that one's |
| IBMAccelerator.SingleKernelAgreesIff | accelerator/IBMAccelerator.cpp:523-560 | a one-kernel job records an outcome as a larger job would if and only if there was nothing to scatter, trim or mask; on a simulator, if the characters other than white space fill the buffer |
| IBMAccelerator.PhysicalParity | accelerator/IBMAccelerator.cpp:626-651 | on hardware the parity-signed sum over the histogram is the signed sum of raw counts by the parity of the measured qubits, and no shot is lost |
| IBMAccelerator.SimulatorParity | accelerator/IBMAccelerator.cpp:603-651 | on a simulator with one character per measured qubit and any white space, the parity-signed sum over the histogram is that of the raw counts by the ones in them, and no shot is lost |
| IBMAccelerator.StripSpaces | accelerator/IBMAccelerator.cpp:600-601 | the loop computes the stripped string, whose meaning the next two rows give |
| IBMAccelerator.StrippedIsJoined | accelerator/IBMAccelerator.cpp:600-601 | registers joined by any white space are stripped to their concatenation |
| IBMAccelerator.StrippedUnchanged | accelerator/IBMAccelerator.cpp:600-601 | a string without white space is unchanged |
| IBMAccelerator.SimulatorRecord | accelerator/IBMAccelerator.cpp:599-621 | on a simulator the registers are joined and the k-th bit from the right is recorded at the k-th smallest measured qubit, '0' elsewhere |
| IBMAccelerator.HardwareRecord | accelerator/IBMAccelerator.cpp:626-644 | on hardware the bits of the measured qubits of the buffer are recorded, '0' elsewhere |
| IBMAccelerator.SingleRecord | accelerator/IBMAccelerator.cpp:531-542 | with one kernel the registers are joined on a simulator, and an outcome of hardware is recorded as it is |
| JobText.EscapeNewlines | accelerator/IBMAccelerator.cpp:405 | exactly the newlines are replaced |
| JobText.JobHoldsProgram | accelerator/IBMAccelerator.cpp:404-406 | the string put into the job's JSON stands for the preamble, with its quotes, and the emitted text |
| JobText.EntryHoldsProgram | accelerator/IBMAccelerator.cpp:404-406 | the entry of a kernel reads as a JSON object with the single field qasm, whose string is the preamble, with its quotes, and the emitted text |
| IBMAccelerator.Accelerator.PrepareKernel | accelerator/IBMAccelerator.cpp:368-410 | one kernel: it is prepared if and only if all its instructions are supported; its text reads as an object holding the program; what its walk recorded; and its name unless the walk failed |
| IBMAccelerator.Accelerator.ProcessInput | accelerator/IBMAccelerator.cpp:367-410 | preparing a job succeeds if and only if every instruction of every kernel is supported; every text then reads as an object holding that kernel's program; the fields are, also after an error at a known kernel, those of the run with this job entered |
| IBMAccelerator.Accelerator.DecodeOne | accelerator/IBMAccelerator.cpp:599-644 | one outcome is decoded as the back end requires |
| IBMAccelerator.Accelerator.DecodeCounts | accelerator/IBMAccelerator.cpp:587-652 | the counts of one kernel are collected under the decoder of its measured qubits |
| IBMAccelerator.Accelerator.RecordSingle | accelerator/IBMAccelerator.cpp:523-542 | the counts of a one-kernel job are collected without decoding |
| IBMAccelerator.Accelerator.ProcessResponse | accelerator/IBMAccelerator.cpp:461-662 | an error response changes nothing; otherwise a one-kernel response is added undecoded to the caller's buffer, a larger one gives a named buffer per kernel decoded with its entry of the table, and the table is cleared |
| LocalIBMAccelerator.DecoderIsInjective | accelerator/LocalIBMAccelerator.cpp:229-243 | with one bit per measured qubit and no qubit measured twice, no two outcomes of a result decode alike |
| LocalIBMAccelerator.HistogramIsImage | accelerator/LocalIBMAccelerator.cpp:217-248 | every outcome's count stands at its scattered string, nothing else is counted, outcomes never merge, and shots are conserved |
| LocalIBMAccelerator.PreparableIff | accelerator/LocalIBMAccelerator.cpp:136 | a kernel can be prepared if and only if its instructions are supported, one outside conditionals emits an operation, and the parameter texts there are JSON literals |
| LocalIBMAccelerator.NamedParameterIsNotPreparable | accelerator/LocalIBMAccelerator.cpp:136 | the operation list of a rotation by a named parameter does not parse |
| LocalIBMAccelerator.AppendTimes | accelerator/LocalIBMAccelerator.cpp:246-247 | appending one occurrence n times is appending n occurrences |
| LocalIBMAccelerator.AppendAll | accelerator/LocalIBMAccelerator.cpp:84-87 | appending one histogram to another adds the counts of every outcome |
| LocalIBMAccelerator.Accelerator.PrepareKernel | accelerator/LocalIBMAccelerator.cpp:97-136 | one kernel is prepared if and only if it is translated and its operations parse; what its walk recorded is in the table either way |
| LocalIBMAccelerator.Accelerator.DecodeCounts | accelerator/LocalIBMAccelerator.cpp:219-248 | the counts of one kernel are collected under the scatter decoder |
| LocalIBMAccelerator.Accelerator.Execute | accelerator/LocalIBMAccelerator.cpp:90-255 | when it succeeds, one named histogram per kernel and a cleared table; when it fails, the table of the run with this job entered up to the failing kernel |
| LocalIBMAccelerator.Accelerator.ExecuteOne | accelerator/LocalIBMAccelerator.cpp:79-88 | the kernel's histogram is added, outcome by outcome, to the caller's counts |

## Left out

- REST calls, login, polling, back-end discovery, the assembly of the job JSON around the programs, and the
  extra information stored on buffers: input and output.
- The simulator, the JSON libraries and exprtk. A parsed response is a parameter, and a parameter's value is
  an uninterpreted angle; printing and reading of literals are inverse by construction, so the precision of
  pi = 3.1415926 and of six-digit output is not modelled. Floating point and noise are not modelled.
- OpenPulse output, plug-in activators, Python bindings, the lexer tables and the serialized parser automaton.
  The loop decision of the expression parser is "the next token is an operator of at least this level".
- Error recovery of the parser: a syntax error is the result None. `xacc::error` ends the call that raised it.
- The instruction iterator, gate registry, IR provider and accelerator buffer are not part of this model
  beyond the behaviour their callers rely on. `bits()` of a conditional is taken to be empty.
- OpenQasmText.ReadText is a reference reader for the statements the visitor writes, not the grammar of
  Appendix A of arXiv:1707.03429; comments, declarations of gates and whole-register arguments are not read.
- TransformKernel: kernels are flat lists, and a CNOT object that the transformation disables occurs once in
  one kernel; a shared object would be seen disabled at its second visit. What the edit makes of a kernel
  after an uncoupled CNOT was not at the index is stated for flat kernels only. A conditional is taken as not
  composite, since the iterator does not descend into it (tests/OpenQasmVisitorTester.cpp:96-99).
- RewriteKeepsMeaning: disabled instructions inside conditional bodies are not represented.
- TranslationKeepsMeaning: circuits of gates other than Y, swaps, measurements and conditionals around one
  gate, as `KeptCircuit` says. CZ is an error in the source and CPhase emits nothing; a body that is empty or
  a swap is not one complete statement after the guard. For Y the statement is per gate, because two Ys of a
  circuit may undo each other's error.
- TranslatedTextKeepsMeaning: parameters that are text must be single words that do not look like one of the
  four printed constants; so must those of ReadTextInvertsText, ReadOpsInvertsIff and OutputsAgreeIff. A
  number literal too large for a double, which the JSON library rejects, counts as a literal.
- PrintThenCompile: the identity gate is excluded (see IdentityComesBackIff); gate declarations and wrong
  numbers of arguments are not modelled, except that U needs three parameters. The names the gate registry
  knows are a parameter.
- CompiledMeansSource: the other gates of qelib1.inc are compiled as NamedGateArguments says, and given no
  meaning here.
- EntryHoldsProgram: parameter texts with a quote or a backslash, which the source embeds unescaped.
- ExecutedOutcomesShownIff: the back end is taken to return the registers with c0 rightmost and one character
  each.
- ProcessInput: of the job's JSON only the entries of the programs are modelled. The back end's simulator flag
  does not change during the life of an accelerator.
- ProcessResponse: requires one supported qubit for every bit the scatter places; the source reads past the
  end of the support list otherwise. Appending zero occurrences leaves a histogram unchanged. Any error of the
  request or the polling is an error response.
