# A model of bc, getopt, pan and taskset

This project models the most intricate parts of the repository's `utils`
directory in Dafny and proves what they promise:

* **Decimal arithmetic** (`number.c`). Numbers are signed digit strings; every
  routine is stated by its exact integer meaning. Addition, schoolbook and
  Karatsuba multiplication, Knuth's long division (Algorithm D, section 4.3.1
  of The Art of Computer Programming, volume 2), divmod, powers, modular powers
  and the Newton square root work on digit arrays, column by column, with their
  carries and borrows. The scale rules are those of the bc utility in the Shell
  and Utilities volume of IEEE Std 1003.1.
* **The bc compiler, loader and machine**. The grammar's actions emit code with
  fresh labels; the loader turns its text into bytes and a label table; the
  machine runs it with value, call and variable stacks. The main theorem
  (`BcProgram.HaltsIff`, `BcProgram.FailsIff`) says that for every program of
  the modelled language (`BcSyntax`: all of bc but `print`, `read()`, `halt` and
  empty `for` expressions), every store and every arithmetic the loaded code
  stops in a store exactly if direct evaluation of the source does, through
  loops, `&&`, `||`, break, continue, assignments, calls with simple, array and
  variable array parameters, recursion and run-time errors. `BcSystem.RunSource`
  joins generator, loader and machine, and `BcSystem.RunActual` does so with
  the decimal arithmetic above as the machine's arithmetic.
* **Arrays and parameters**: radix trees on the heap; how arguments reach
  their parameters in spite of three list reversals; what a call leaves behind;
  and exactly which calls pass the arrays that were meant
  (`BcArrayCalls.CallPassesIff`).
* **getopt**: the in-place rotation, and a whole permuting scan.
* **pan**: the scheduling loop as a step system driven by its environment, and
  the zoo file.
* **taskset**: masks and lists, printed and read back, and exactly which lists
  the reader finishes.

## How it is organised

| modules | subject |
|---|---|
| `Wrappers`, `DecimalText` | optional values, decimal text |
| `Digits`, `Numbers`, `AddSub` | digit strings, canonical numbers, compare, add, subtract |
| `SchoolMul`, `ShiftAdd`, `Karatsuba` | multiplication |
| `QuotientDigit`, `DivideStep`, `Division`, `Remainder` | division |
| `Power`, `LongValue`, `Raising`, `ModularPower`, `Newton`, `SquareRoot` | powers and roots |
| `BaseConversion` | printing and reading numbers |
| `BcSyntax`, `BcSemantics`, `BcStore` | programs and their direct evaluation |
| `BcCompile`, `BcGenerator`, `BcLabels` | emitted code, the actions, labels |
| `BcText`, `BcFunctions`, `BcEncoding`, `BcLoader`, `BcFit` | text, loading, bytes |
| `BcMachine` | the machine |
| `BcPlacement`, `BcSimulation`, `BcLayout`, `BcEvaluation`, `BcCompose`, `BcComposeStmt`, `BcComposeLoop`, `BcCorrect`, `BcProgram`, `BcSystem` | compiler correctness |
| `BcArith`, `BcActual` | number.c as the machine's arithmetic |
| `BcCalls`, `BcConservation`, `BcArrayParams`, `BcArrayCalls`, `RadixArray` | calls, stacks, array parameters, arrays |
| `Getopt`, `GetoptScan`, `PanScheduler`, `Zoo`, `TasksetMask`, `TasksetRange`, `TasksetList` | the smaller programs |

`dafny verify dfyconfig.toml` checks everything.

## Where code and expectation differ

* `bc_num2long` returns a wrong number other than 0 for some numbers of twenty
  and more digits (`LongValue.ScanIff`).
* `bc_raise` can leave a negative zero (`Raising.RaisedCanonical`). Sums of
  negative zeros, remainders and first powers keep it, it is less than zero, and
  its square root is an error (`BcArith.Arithmetic`, `AddSub.Compare`,
  `SquareRoot.Sqrt`).
* `push_constant` reads a point with nothing behind it as if the largest digit
  followed; `push_b10_const` takes a single digit above nine with a fraction as
  nine (`BaseConversion.ReadersAgree`, with an input for each). The scanner
  removes a trailing point. `push_b10_const` keeps leading zeros, which the scanner removes too.
* Inside a `while`, `continue` belongs to an enclosing `for`.
* Array parameters receive the wrong array when an argument names a later
  parameter that is given another array (`BcArrayParams.SwappedArraysClash`), and
  array numbers are read in the current input base
  (`BcArrayCalls.ArrayNumberIff`). `BcArrayCalls.CallPassesIff` is the exact
  condition for both.
* A program with more than 65535 labels makes the loader exit (`BcFit.LoadsIff`).
* pan: a child reported as stopped loses its slot but stays active until its end
  is reported (`PanScheduler.LostAfter`); repeated SIGTERM never escalates, and
  every fifth SIGINT passes nothing on.
* The zoo file loses track of entries exactly if one has a line break within its
  79 characters (`Zoo.RunOps`).
* taskset prints the empty set as a list it rejects, and never finishes a range
  with stride zero or one whose end reaches the largest value its unsigned
  counter can take (`TasksetRange.EndsIff`).

## Modelling notes

* C integers are unbounded here, except where their width decides: `long` in
  `bc_num2long`, `unsigned int` in the list reader of taskset, the one- and
  two-byte names and labels of the byte code.
* The compiler theorem is stated for any arithmetic (the record
  `BcStore.Arith`). `BcArith.ACTUAL` is the one of number.c: the methods of
  `BcArith` run the routines of the first group and equal its operations on all
  trimmed numbers, and `BcActual` runs the whole machine on them.
* An array is a reference into a heap of finite maps, so that variable array
  parameters share their cells; `RadixArray` shows that the trees behave as such
  maps.
* Facts about long code or deep evaluations are kept folded behind
  `Wrappers.Exactly`, which only guides the proofs.
* Direct evaluation has a fuel that bounds loop rounds and nested calls; running
  out of it is an outcome, matched by a machine that is still running after that
  many steps, so no bound remains in `HaltsIff` and `FailsIff`.
* The environment of pan (fork, wait, signals, random choices, the stop file) is
  a sequence of answers; wait reports, in any way and any number of times, a
  child whose end it has not reported yet, or nothing, and fork gives any number.
* The zoo file is a text, read line by line as `fgets` does; each operation is
  atomic, and `atoi` is not limited.

## Model

| member | source | states |
|---|---|---|
| `Numbers.RmLeadingZeros` | utils/bc/lib/number.c:138-146 | leading zeros of the integer part go, value and fraction stay, one digit is kept |
| `Numbers.IsZero` | utils/bc/lib/number.c:281-301 | true exactly for the numbers whose magnitude is zero |
| `Numbers.IsNearZero` | utils/bc/lib/number.c:308-330 | true exactly if the number, cut to the given scale, is at most one unit of the last place |
| `Numbers.IsUnique` | utils/bc/lib/number.c:163-190 | a canonical number is determined by its value and scale, which is what comparing lengths first relies on |
| `AddSub.CompareMagnitudes` | utils/bc/lib/number.c:154-257 | on trimmed numbers the length-first, digit-by-digit comparison is the order of the magnitudes; also what it says of empty Karatsuba halves |
| `AddSub.Compare` | utils/bc/lib/number.c:154-267 | the sign of the numeric difference, except that a negative zero is less than a zero |
| `AddSub.DoAdd` | utils/bc/lib/number.c:338-421 | the columns with their carry give the exact sum of the magnitudes at the larger of the two scales and scale_min |
| `AddSub.DoSub` | utils/bc/lib/number.c:430-522 | the columns with their borrow give the exact difference, with no borrow left |
| `AddSub.Sub` | utils/bc/lib/number.c:530-572 | exact difference of signed numbers at the promised scale, with its sign; canonical if the operands are |
| `AddSub.Add` | utils/bc/lib/number.c:580-620 | exact sum of signed numbers at the promised scale, with its sign; canonical if the operands are |
| `SchoolMul.SimpMul` | utils/bc/lib/number.c:658-685 | the column sums give the exact product, and the extra leading digit is zero |
| `ShiftAdd.ShiftAddSub` | utils/bc/lib/number.c:693-748 | the accumulator changes by exactly the shifted value; carry and borrow ripple inside it |
| `ShiftAdd.CarryStaysInside` | utils/bc/lib/number.c:740-746 | a carry never reaches the left end of an accumulator that can hold the sum |
| `ShiftAdd.BorrowStaysInside` | utils/bc/lib/number.c:721-727 | a borrow never reaches the left end if the accumulator is not smaller than the value |
| `Karatsuba.Split` | utils/bc/lib/number.c:779-799 | both halves, possibly empty, make up the number again |
| `Karatsuba.PositiveFits` | utils/bc/lib/number.c:829-838 | the four positive terms together fit into ulen+vlen+1 digits for every pair of lengths |
| `Karatsuba.Combined` | utils/bc/lib/number.c:805-839 | the positive terms and the signed middle term make up the product, and never leave the accumulator |
| `Karatsuba.Combine` | utils/bc/lib/number.c:829-839 | the shifted additions and the final addition or subtraction yield exactly that sum |
| `Karatsuba.RecMul` | utils/bc/lib/number.c:759-851 | for all operands the recursive product is the exact product, as the schoolbook one is, and the recursion ends |
| `Karatsuba.Multiply` | utils/bc/lib/number.c:858-885 | the exact product truncated toward zero at min(full scale, max(scale, both scales)) digits |
| `DivideStep.OneMult` | utils/bc/lib/number.c:893-924 | a digit times a row of digits, carry stored in front, nothing else touched |
| `QuotientDigit.TestRejects` | utils/bc/lib/number.c:1044-1055 | a guess that fails the test is too large |
| `QuotientDigit.TestAccepts` | utils/bc/lib/number.c:1044-1055 | a guess that passes the test is at most one too large, for a normalised divisor |
| `QuotientDigit.GuessDigit` | utils/bc/lib/number.c:1038-1056 | after two corrections the guess is the quotient digit or one more |
| `DivideStep.SubtractRow` | utils/bc/lib/number.c:1057-1078 | the window minus the row, with the final borrow telling whether it went below zero |
| `DivideStep.AddBack` | utils/bc/lib/number.c:1079-1100 | adding the divisor back wraps around exactly once |
| `DivideStep.QuotientRound` | utils/bc/lib/number.c:1036-1104 | one round yields the exact quotient digit and leaves the exact remainder, smaller than the divisor, in the window |
| `Division.DivideLoop` | utils/bc/lib/number.c:1035-1105 | all rounds together yield the exact integer quotient, all indices in range |
| `Division.LongDivide` | utils/bc/lib/number.c:1017-1105 | normalising dividend and divisor does not change the quotient |
| `Division.Divide` | utils/bc/lib/number.c:933-1120 | for every divisor but zero, the quotient truncated toward zero at exactly scale digits; an error exactly for zero |
| `Remainder.DivMod` | utils/bc/lib/number.c:1129-1159 | num1 = quot * num2 + rem exactly, rem below one unit of the last quotient place times num2, and signed like num1 or zero; a negative zero remains exactly of a negative zero |
| `Remainder.Modulo` | utils/bc/lib/number.c:1166-1171 | the remainder of that division, whose quotient is the truncated one; an error exactly for a zero divisor |
| `Remainder.ExactProduct` | utils/bc/lib/number.c:1148-1149 | a product asked for at full scale loses no digit |
| `ModularPower.MulMod` | utils/bc/lib/number.c:1211-1223 | one product reduced modulo mod: always below one unit of the last quotient place times mod, and for whole operands at scale zero congruent to the product and smaller than mod |
| `ModularPower.RaiseMod` | utils/bc/lib/number.c:1178-1231 | errors exactly for mod zero or expo negative; for all other operands, fractions included, a canonical result within the bound of its last reduction, and for whole base and modulus at scale zero congruent to base^expo modulo mod and smaller than mod when expo > 0 |
| `LongValue.Num2Long` | utils/bc/lib/number.c:1586-1608 | the digit loop with its wrap-around and its overflow test |
| `LongValue.ScanExact` | utils/bc/lib/number.c:1586-1608 | every number up to LONG_MAX is returned exactly |
| `LongValue.ScanTooLarge` | utils/bc/lib/number.c:1592-1602 | a larger number gives 0, except exactly when its first 19 digits exceed LONG_MAX by one or two and more digits follow: then the scan starts afresh |
| `LongValue.ScanIff` | utils/bc/lib/number.c:1592-1602 | a number v other than zero is returned exactly for the digit strings that consist of zeros and copies of LONG_MAX + 1, followed by v up to LONG_MAX, or by LONG_MAX + 2 and one to eighteen digits, where a one takes the place of LONG_MAX + 2 |
| `LongValue.TooLargeIsNotAlwaysZero` | utils/bc/lib/number.c:1592-1602 | 92233720368547758085 is returned as 5 |
| `Raising.ExactPower` | utils/bc/lib/number.c:1277-1300 | square-and-multiply yields the exact power at the full scale, with its sign |
| `Raising.Raise` | utils/bc/lib/number.c:1238-1316 | base^n truncated to min(scale*n, max(scale, own scale)) digits for n > 0, 1/base^|n| truncated at scale for n < 0, and one for n = 0; an error exactly for a zero base and n < 0 |
| `Raising.RaisedCanonical` | utils/bc/lib/number.c:1308-1314 | the result is canonical exactly unless a negative power is cut to zero, or the first power of a negative zero is taken |
| `Raising.NegativeZeroPower` | utils/bc/lib/number.c:1312-1313 | (-0.1)^3 at scale 0 is a negative zero |
| `SquareRoot.Int2Num` | utils/bc/lib/number.c:1614-1652 | the canonical number with the given integer value |
| `Newton.NextNotBelow` | utils/bc/lib/number.c:1386-1388 | one integer Newton step never ends below the floor of the root |
| `Newton.SmallStep` | utils/bc/lib/number.c:1389-1390 | a step of at most one means floor of the root or one more |
| `SquareRoot.NewtonRound` | utils/bc/lib/number.c:1384-1390 | the bcd round is the integer Newton step on floor(N * 10^(2*cscale)), and the near-zero test is |step| <= 1 |
| `SquareRoot.NewtonLoop` | utils/bc/lib/number.c:1380-1397 | the precision stages end, and end at the floor of the root or one more |
| `SquareRoot.ExcessVanishes` | utils/bc/lib/number.c:1390-1401 | the possible extra one never survives the final truncation |
| `SquareRoot.RootOf` | utils/bc/lib/number.c:1399-1401 | cutting the last guess gives exactly the truncated root |
| `SquareRoot.Sqrt` | utils/bc/lib/number.c:1322-1407 | for every non-negative number the root truncated to max(scale, own scale) digits, except that the roots of zero and of one have scale zero; an error exactly for negative numbers |
| `BaseConversion.PushConstant` | utils/bc/bc/execute.c:600-683 | the number a constant denotes in any base from 2 to 16: clamped digits, fraction cut to as many decimal places as it has digits |
| `BaseConversion.PushB10` | utils/bc/bc/execute.c:692-773 | value, scale and the exact condition for a canonical result of the fast reader |
| `BaseConversion.ReadersAgree` | utils/bc/bc/execute.c:600-773 | in base ten both readers give the same value and scale exactly if the constant does not end in a point and is not a single digit above nine with a fraction |
| `BaseConversion.LargeDigitDiffers` | utils/bc/bc/execute.c:600-773 | A.5 is 10.5 to the general reader and 9.5 to the fast one |
| `BaseConversion.TrailingPointDiffers` | utils/bc/bc/execute.c:600-773 | a five with a trailing point is 5.9 to the general reader and 5 to the fast one |
| `BaseConversion.OutInt` | utils/bc/lib/number.c:1456-1548 | the digits of the magnitude in the output base, highest first, with the sign in front |
| `BaseConversion.BaseDigits` | utils/bc/lib/number.c:1512-1523 | repeated modulo and divide yield the digits of the magnitude |
| `BaseConversion.PrintedReads` | utils/bc/bc/execute.c:600-650 | what is printed for an integer, negative or not, denotes that integer when read in the same base |
| `BaseConversion.PrintAndRead` | utils/bc/lib/number.c:1456-1548 | printing an integer and reading the characters back gives the same number |
| `BcLabels.FreshExpr` | utils/bc/bc/bc.c:1379-1415 | an expression defines exactly the labels it took from next_label, each once |
| `BcLabels.FreshStmt` | utils/bc/bc/bc.c:1067-1229 | a statement defines exactly the labels it took, each once |
| `BcLabels.TargetsExpr` | utils/bc/bc/bc.c:1379-1415 | an expression jumps exactly to the labels it defines |
| `BcLabels.TargetsStmt` | utils/bc/bc/bc.c:1067-1229 | a statement jumps to every label it defines and otherwise only to the enclosing break or continue label |
| `BcGenerator.Generator.GenExpr` | utils/bc/bc/bc.c:1349-1640 | the actions append exactly the code of the expression and advance the label counter by what it uses |
| `BcGenerator.Generator.GenStmt` | utils/bc/bc/bc.c:1047-1229 | the actions append exactly the code of the statement, restore the break, continue and if labels, and report exactly the stray breaks and continues |
| `BcGenerator.Generator.GenFor` | utils/bc/bc/bc.c:1104-1157 | the interleaved actions of a for emit its code with fresh labels and restore both loop labels |
| `BcGenerator.GoodHasNoStray` | utils/bc/bc/bc.c:1067-1091 | a statement whose breaks and continues are inside loops and fors is never reported |
| `BcGenerator.Generator.GenDef` | utils/bc/bc/bc.c:1230-1251 | the actions of a definition append its header, its code counted from label one and its end, restore the label counter, and report exactly the stray breaks and continues of its body |
| `BcFit.FitsIff` | utils/bc/bc/load.c:211-224 | the code of a statement can be encoded exactly if it takes no label above 65535 |
| `BcFit.LoadsIff` | utils/bc/bc/load.c:211-224 | loading the text of a statement gives up exactly if it takes a label above 65535 |
| `BcEncoding.DecodeEncoded` | utils/bc/bc/execute.c:95-242 | the machine decodes every encoded instruction to itself and to the address behind it |
| `BcEncoding.LabelMapResolves` | utils/bc/bc/load.c:86-120 | every label resolves to its definition point |
| `BcEncoding.EncodedIsPlaced` | utils/bc/bc/load.c:151-351 | encoded code with that label table is what the machine finds at its address |
| `BcText.LoadText` | utils/bc/bc/load.c:151-351 | loading the text of an item appends its encoding or defines its label here |
| `BcText.LoadAll` | utils/bc/bc/load.c:151-351 | loading emitted text appends exactly the encoded code with every label at its place |
| `BcText.LoadTooBig` | utils/bc/bc/load.c:211-224 | a jump to a label above 65535 makes the loader give up |
| `DecimalText.ReadSigned` | utils/bc/bc/load.c:128-145 | long_val reads back every number that was written with %d |
| `BcFunctions.ListRoundTrip` | utils/bc/bc/load.c:226-277 | a parameter list with its stars, and an auto list, is stored as the grammar built it: the reversals of writing and of reading cancel |
| `BcFunctions.LoadFunction` | utils/bc/bc/load.c:226-283 | loading a definition, variable parameters included, defines its function completely and returns to the main program |
| `BcLoader.Segment.AddByte` | utils/bc/bc/load.c:54-80 | the buffer holds the old code and one byte more, also when it had to be doubled |
| `BcLoader.Segment.DefLabel` | utils/bc/bc/load.c:86-120 | the label gets the current address, all other labels keep theirs, groups are created as needed |
| `BcLoader.Segment.FindLabel` | utils/bc/bc/execute.c:133-140 | the walk along the linked label groups finds the address of every defined label |
| `BcLoader.FillSegment` | utils/bc/bc/load.c:54-120 | filling a segment with code leaves exactly its encoding and its label table |
| `BcLoader.Loader.LongVal` | utils/bc/bc/load.c:128-145 | the digit loop computes the number and stops behind it |
| `BcLoader.Loader.LoadCode` | utils/bc/bc/load.c:151-351 | the scan with its string and constant modes does what the specification of loading says |
| `BcMachine.Execute` | utils/bc/bc/execute.c:64-108 | the interpreter loop performs single steps and stops exactly at an error or at the end of the code |
| `BcCalls.MatchIff` | utils/bc/bc/util.c:133-150 | the kinds of a call, listed last argument first, agree with the reversed parameter list exactly if each argument has the kind of the parameter in its place |
| `BcCalls.BindParamsIsBindAll` | utils/bc/bc/storage.c:988-1067 | popping the values last first along the reversed list and the reversed kinds binds the n-th actual to the n-th formal, for simple, array and variable array parameters in any mixture |
| `BcCalls.BindParamsMismatch` | utils/bc/bc/storage.c:1045-1067 | a wrong number of arguments or an argument of the wrong kind is always noticed |
| `BcCalls.PushAutosReversed` | utils/bc/bc/execute.c:157-162 | the reversed order of the auto list does not matter |
| `BcCalls.PopNamesReversed` | utils/bc/bc/storage.c:901-941 | nor does it when the names are popped |
| `BcSimulation.StepCall` | utils/bc/bc/execute.c:143-173 | a call whose arguments match in number and kind enters the function with its parameters and autos pushed and the return address and ibase saved; any other call stops with an error |
| `BcSimulation.StepReturn` | utils/bc/bc/execute.c:229-242 | a return restores program counter and call stack and pops exactly the names of the function |
| `BcCorrect.SimExpr` | utils/bc/bc/bc.c:1349-1640 | running the code of an expression pushes exactly its value and has the effects of evaluating it, fails where it fails, and runs on where it does not end |
| `BcCorrect.SimStmt` | utils/bc/bc/bc.c:1047-1229 | running the code of a statement leaves the stack as it was and ends behind it, at the break, the continue or a return as its execution says |
| `BcCorrect.SimCall` | utils/bc/bc/execute.c:143-242 | a call replaces its arguments by exactly one result and resumes behind it |
| `BcCorrect.SimAnd` | utils/bc/bc/bc.c:1379-1395 | && evaluates its second operand only if the first is not zero; its value is the zero found, or one |
| `BcCorrect.SimOr` | utils/bc/bc/bc.c:1396-1415 | || evaluates its second operand only if the first is zero; its value is one or zero |
| `BcCorrect.SimWhile` | utils/bc/bc/bc.c:1175-1199 | a while runs test and body in turn; break leaves it and continue belongs to an enclosing for |
| `BcCorrect.SimFor` | utils/bc/bc/bc.c:1104-1157 | a for runs initialisation, test, body and update in that order; break and continue go to its end and its update |
| `BcProgram.ProgramReady` | utils/bc/bc/load.c:151-351 | a loaded program has its main code and all its functions in place |
| `BcProgram.RunMatches` | utils/bc/bc/execute.c:64-547 | the run of a loaded program has the outcome that direct evaluation has, for every store and any fuel |
| `BcProgram.HaltsIff` | utils/bc/bc/execute.c:64-547 | the loaded program stops normally in a store exactly if the source ends normally in that store, with value and call stacks empty |
| `BcProgram.FailsIff` | utils/bc/bc/execute.c:64-547 | it stops in an error with a store exactly if the source fails, or returns outside a function, with that store |
| `BcConservation.ExprKeeps` | utils/bc/bc/storage.c:449-646 | no evaluation changes a variable or array stack below its top, nor the contents of an array that no name shows |
| `BcConservation.StmtKeeps` | utils/bc/bc/storage.c:449-941 | nor does any statement, whether it ends, breaks, continues or returns |
| `BcConservation.BindAllVars` | utils/bc/bc/storage.c:1003-1011 | every simple parameter gets its own actual on top of its old stack, and no other simple variable changes |
| `BcConservation.CallRestores` | utils/bc/bc/storage.c:844-941 | a call that returns leaves every parameter and auto, simple, array or variable array, with the stack it had, and an array that was out of reach during the call with the numbers it had |
| `BcArrayParams.SetCellIs` | utils/bc/bc/storage.c:573-592 | storing into an array changes that element, and no array that does not share its cells |
| `BcArrayParams.BindContents` | utils/bc/bc/storage.c:1012-1038 | which array of the caller a formal array really receives when all parameters are bound, and whether it shares its cells with it or has cells of its own |
| `BcArrayParams.ArraysPassedIff` | utils/bc/bc/storage.c:1012-1038 | the arrays that were meant reach their parameters, copied or shared, in every store, exactly if each number either names the array meant or a later parameter that was given that array, by reference where the parameter itself is one |
| `BcArrayParams.SwappedArraysClash` | utils/bc/bc/storage.c:1008-1038 | f(b[],a[]) for a function f(a[],b[]) passes a twice |
| `BcArrayCalls.ArrayNumberIff` | utils/bc/bc/bc.c:1303-1325 | the decimal text of an array number is read as that number exactly if it has one digit or constants are read in base ten |
| `BcArrayCalls.UniformIff` | utils/bc/bc/storage.c:1012-1038 | when equal arrays got equal numbers, the condition splits into two: no argument names a later array parameter that is given another array, and every number is the one meant |
| `BcArrayCalls.CallPassesIff` | utils/bc/bc/storage.c:988-1067 | a call that matches in number and kind passes the arrays meant, in every store, exactly if no argument names a later array parameter that is given another array (or a copy where a reference is meant) and every array number has one digit or the base is ten |
| `BcArrayCalls.ActualReads` | utils/bc/bc/execute.c:179-189 | the arithmetic of number.c reads array numbers as the previous row supposes |
| `BcArith.Arithmetic` | utils/bc/bc/execute.c:381-460 | the routines of number.c compute what the binary instructions of the machine are stated to compute, for all numbers, negative zeros included |
| `BcArith.PowerStep` | utils/bc/bc/execute.c:448-460 | a power is the truncated power or reciprocal, or an error exactly for an exponent that is too large and for a negative power of zero |
| `BcArith.Ordering` | utils/bc/bc/execute.c:462-521 | the comparison the machine uses is the order of the values, with a negative zero below zero |
| `BcArith.Root` | utils/bc/bc/execute.c:285-288 | the root the machine uses is the integer square root of the scaled magnitude, with zero and one as special cases, or an error exactly for negative numbers |
| `BcArith.ReadConstant` | utils/bc/bc/execute.c:179-189 | the reader chosen by the input base reads what the machine is stated to read, for every constant the scanner produces |
| `BcActual.PerformProper` | utils/bc/bc/execute.c:112-547 | with operations that keep numbers trimmed and not empty, every instruction keeps all numbers of the machine so |
| `BcActual.RunProper` | utils/bc/bc/execute.c:64-547 | no run ever calls the routines on numbers outside what they are proved for |
| `BcActual.ActualPerform` | utils/bc/bc/execute.c:112-547 | every instruction, performed by the routines of number.c, does what the machine is stated to do |
| `BcActual.ActualExecute` | utils/bc/bc/execute.c:64-547 | a run on the routines is the run of the machine with their arithmetic |
| `BcSystem.Generate` | utils/bc/bc/bc.c:1230-1251 | definitions and main statement, generated one after the other, give exactly the text of the program |
| `BcSystem.StopsIff` | utils/bc/bc/execute.c:64-547 | the generated, loaded and executed program stops after some number of steps exactly if the source ends, fails or returns outside a function |
| `BcSystem.RunSource` | utils/bc/bc/util.c:241-303 | generating, loading and executing a program with a limit on the steps: it stops within the limit exactly if the loaded code does, and where it stops the store is what direct evaluation of the source says, normal or failed |
| `BcSystem.RunActual` | utils/bc/bc/util.c:241-303 | the same with the routines of number.c, whose negative zeros are among its numbers, in place of an arbitrary arithmetic |
| `RadixArray.PathDeeper` | utils/bc/bc/storage.c:397-415 | a level added at the root leaves every old element below its first child |
| `RadixArray.PathInjective` | utils/bc/bc/storage.c:386-395 | different subscripts never share a place |
| `RadixArray.Node.Access` | utils/bc/bc/storage.c:417-441 | following a path creates missing nodes of zeros and changes no other element |
| `RadixArray.Node.CopyTree` | utils/bc/bc/storage.c:945-966 | a tree of new nodes with the same numbers |
| `RadixArray.BcArray.Subscripts` | utils/bc/bc/storage.c:386-395 | a subscript up to 65535 never needs more than four levels |
| `RadixArray.BcArray.Deepen` | utils/bc/bc/storage.c:397-415 | growing the depth changes no element |
| `RadixArray.BcArray.Access` | utils/bc/bc/storage.c:361-442 | the array behaves as a total map that is zero where nothing was stored |
| `RadixArray.BcArray.Copy` | utils/bc/bc/storage.c:972-979 | an equal array that shares nothing with the original |
| `RadixArray.RunOps` | utils/bc/bc/storage.c:573-673 | any sequence of loads and stores yields what it yields on a map |
| `RadixArray.RunOnCopy` | utils/bc/bc/storage.c:972-979 | whatever is done to a copy, the original keeps its numbers |
| `Getopt.Exchange` | utils/bc/lib/getopt.c:223-276 | exactly a block rotation: the two segments change places, each in its old order, and nothing else moves |
| `Getopt.SwapSegments` | utils/bc/lib/getopt.c:244-266 | the inner loop swaps two segments of equal length |
| `Getopt.BottomMoved` | utils/bc/lib/getopt.c:241-253 | after the shorter bottom segment has been swapped away, a smaller rotation is left to do |
| `Getopt.TopMoved` | utils/bc/lib/getopt.c:254-269 | the same for the shorter top segment |
| `GetoptScan.Scan.Settle` | utils/bc/lib/getopt.c:384-396 | options found since the last non-options are moved in front of them |
| `GetoptScan.Scan.Skip` | utils/bc/lib/getopt.c:398-405 | further non-options are skipped and added to the range |
| `GetoptScan.Scan.DoubleDash` | utils/bc/lib/getopt.c:407-424 | "--" counts as the last option and everything behind it as non-options |
| `GetoptScan.Scan.Decode` | utils/bc/lib/getopt.c:596-665 | one option character with the argument it takes from its own element or from the next |
| `GetoptScan.Scan.Next` | utils/bc/lib/getopt.c:371-666 | each call returns the next result of the whole scan; at the end options come first and optind is the first non-option |
| `GetoptScan.ScanAll` | utils/bc/lib/getopt.c:371-666 | the calls together return exactly the results of the original vector, and leave its options, then its other elements, with optind between them |
| `GetoptScan.SplitPicks` | utils/bc/lib/getopt.c:314-340 | options with their arguments, and the other elements, each keep their original order |
| `GetoptScan.ScanPermutes` | utils/bc/lib/getopt.c:314-340 | the final vector is a permutation of the original one |
| `PanScheduler.Scheduler.constructor` | utils/pan/pan.c:330-344 | the number of starts a run begins with, for every number asked for |
| `PanScheduler.Scheduler.FindSlot` | utils/pan/pan.c:442-453 | a free slot always exists, so the abort is never reached, and the first one is taken |
| `PanScheduler.Scheduler.StartChild` | utils/pan/pan.c:764-966 | a started child takes the first free slot and no other changes, it is counted, and one start is used up unless starts are unlimited; a failed one changes nothing |
| `PanScheduler.Scheduler.Launch` | utils/pan/pan.c:435-467 | launching keeps the count equal to the children that have not ended and within keep_active |
| `PanScheduler.Scheduler.PropagateSignal` | utils/pan/pan.c:577-610 | every occupied slot is marked as stopping, no other one |
| `PanScheduler.Scheduler.SlotOf` | utils/pan/pan.c:679-680 | the first slot of the process group that was reported |
| `PanScheduler.Scheduler.CheckPids` | utils/pan/pan.c:614-760 | an end is counted down, whether or not the child has a slot; the first slot of its group becomes free and no other; the errors are exactly those of its status and slot; a report that is neither an exit nor a signal frees the slot of a child that stays active |
| `PanScheduler.TrackedBound` | utils/pan/pan.c:614-760 | the active children are those with a slot and those that lost theirs to such a report |
| `PanScheduler.LostAfter` | utils/pan/pan.c:614-760 | a report makes a child a lost one exactly if it is odd and the child has a slot; a lost child is one until its end is reported |
| `PanScheduler.Scheduler.OneRound` | utils/pan/pan.c:433-528 | a round keeps all counts; it leaves the loop exactly if a stop is wanted and no child is active, and then every child that was started has ended and no slot is occupied |
| `PanScheduler.Scheduler.Run` | utils/pan/pan.c:433-528 | in every run counts agree, remaining plus launched starts are the initial ones and commands are attempted in cyclic order; the loop is only left when every child has ended; a run that ends without signals, and with brakes without failures, has made every start, also with fork_in_road; without odd reports every active child has a slot |
| `PanScheduler.Escalates` | utils/pan/pan.c:1250-1272 | repeated interrupts or alarms pass on themselves, TERM, HUP, KILL, nothing, and start again |
| `PanScheduler.HangupAlternates` | utils/pan/pan.c:1250-1272 | repeated hangups pass on HUP and TERM in turn |
| `PanScheduler.UserSignals` | utils/pan/pan.c:1250-1272 | repeated user signals pass on themselves, INT, nothing, and start again |
| `PanScheduler.TerminationStays` | utils/pan/pan.c:1250-1272 | repeated termination signals never escalate |
| `Zoo.EntryReads` | utils/pan/zoolib.c:189-195 | the line of an entry is never taken for a cleared line, and its process number reads back |
| `Zoo.ZooFile.Mark` | utils/pan/zoolib.c:133-186 | for every file and entry, the first cleared line is overwritten by the entry fitted to its length, or the entry is appended |
| `Zoo.MarkedWhole` | utils/pan/zoolib.c:133-186 | in a file of whole lines an entry without line break adds one live line, moves no line, and adds a line to the file only beyond the largest number of live lines so far |
| `Zoo.ZooFile.MarkCmdline` | utils/pan/zoolib.c:189-195 | the same two results for the entry of a process |
| `Zoo.ZooFile.Clear` | utils/pan/zoolib.c:211-268 | for every file, the first live line of that process is crossed out in place, or nothing changes and this is reported; whole lines stay whole |
| `Zoo.ZooFile.GetPid` | utils/pan/zoolib.c:271-305 | for every file, the process of the first live line whose tag part starts with the tag, or -1 |
| `Zoo.RunOps` | utils/pan/zoolib.c:133-268 | after any sequence of marks and clears on a new file, the files show the history of live entries exactly if no entry contains a line break; then the number of lines is the largest number of live entries of any prefix, and no line ever moved or changed its length |
| `Zoo.UncleanFails` | utils/pan/zoolib.c:133-186 | a mark whose entry contains a line break never leaves that entry as a live line |
| `TasksetMask.CpusetToStr` | utils/schedutils/taskset.c:76-98 | the hexadecimal digits of the mask without leading zeros |
| `TasksetMask.StrToCpuset` | utils/schedutils/taskset.c:149-178 | the set that the digits denote, or a rejection exactly if one of them is no hexadecimal digit |
| `TasksetMask.HexRoundTrip` | utils/schedutils/taskset.c:76-178 | for every set, reading the printed mask gives the set back |
| `TasksetMask.PrintAndRead` | utils/schedutils/taskset.c:76-178 | printing and reading a mask gives the same set |
| `TasksetList.CpusetToCstr` | utils/schedutils/taskset.c:100-134 | every run of CPUs is printed once, as one number, two numbers or a range |
| `TasksetRange.EndsIff` | utils/schedutils/taskset.c:220-223 | with unsigned values that wrap around, the loop over a..b in steps of s ends exactly if b < 2^32 - g + a mod g, where g is the greatest common divisor of s and 2^32 |
| `TasksetRange.EveryIs` | utils/schedutils/taskset.c:220-223 | where nothing wraps, the loop sets exactly the CPUs a, a+s, a+2s, ... up to b |
| `TasksetList.FinishesIff` | utils/schedutils/taskset.c:189-227 | the reader finishes on a string exactly if every range before the first rejected token meets that condition |
| `TasksetList.FinishesWith` | utils/schedutils/taskset.c:189-227 | where it finishes, the outcome is the union of the ranges or the rejection |
| `TasksetList.CstrToCpuset` | utils/schedutils/taskset.c:189-227 | the reader, run for at most limit rounds: it stops only with the meaning of the string, and does stop, given enough rounds, whenever all ranges end |
| `TasksetList.EntriesParse` | utils/schedutils/taskset.c:100-227 | reading the printed entries from some CPU on adds exactly the CPUs from there on |
| `TasksetList.ListRoundTrip` | utils/schedutils/taskset.c:100-227 | reading undoes printing exactly for the sets that are not empty; the empty set prints as a string that is rejected |
| `TasksetList.PrintAndReadList` | utils/schedutils/taskset.c:100-227 | printing and reading a list ends and gives the same set unless it is empty |
| `TasksetList.RangeFinishesIff` | utils/schedutils/taskset.c:206-223 | the list i-j:s is read to its end exactly under that condition |
| `TasksetList.PlainRangeFinishesIff` | utils/schedutils/taskset.c:206-223 | the list i-j is read to its end exactly if j is not the largest unsigned number |
| `TasksetList.EndlessLists` | utils/schedutils/taskset.c:220-223 | 0-3:0, 0-4294967295 and 0-4294967294:2 are never finished |

## Left out

- Memory management: malloc, free, reference counts and the free list of numbers.
- The flex scanners and the bison driver; the model starts from syntax trees and the semantic actions.
- `ignore_last` of `_bc_do_compare`, which no caller uses, and the dead store of the divide-by-one block.
- Fraction digits of `bc_out_num` in bases other than ten, output in bases above sixteen, and line wrapping.
- The mathematical library, `read()`, the `history` variable, `print` statements, `halt`, `quit`, `limits` and `warranty`.
- Statements with an empty `for` expression; the actions emit a bare pop or no condition for them.
- The clean-up of stacks after a run-time error: an error state keeps its store, and its stacks are not modelled further.
- The size of the variable, array and function tables: an array number that was read in the wrong base selects some array, where the C code would index outside its table.
- Freeing: `a_param` only decides who frees an array.
- Text that the generator never emits: the loader's model stops at the end of such text where the C code would read on.
- Characters above 127 in bc strings.
- `insert_id_rec` and `lookup`: names are numbers here.
- BaseConversion.OutInt: models integers in bases up to sixteen, since fraction digits in other bases, and the spaced digits of larger ones, do not read back.
- BcGenerator.Generator.GenExpr: has no `read()`, whose value comes from outside.
- BcGenerator.Generator.GenStmt: has no `print`, `halt`, `quit`, `limits` or `warranty`, which add no control flow but the end of the program.
- BcActual.ActualNumber: runs the readers on the constants that the scanner produces, and takes other strings, which the scanner never passes on, by definition.
- BaseConversion.PushConstant: does not model leading blanks, which only `read()` meets, nor reading on behind the terminator of a constant that ends in a point.
- RadixArray.Node.Access: descends recursively where the source loops, because the ghost footprints of the ancestors have to be renewed on the way back.
- BcMachine.Execute: the state is one value and the instructions are functions on it, not updates of C globals, because the theorems are about whole runs.
- BcLoader.Loader.LoadCode: leaves out the @ commands of precompiled text and keeps the functions as values; the buffer and the label groups of one function are modelled in place in `BcLoader.Segment`.
- Long options of getopt and the orderings other than PERMUTE.
- Orphaned process groups, output files and log lines of pan.
- dc, the reporters of pan, memtester, evtest and the other tools of `utils`, and the Python code.
