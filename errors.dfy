// The ways an assembly run can end in failure. The assembler prints one
// message to stderr and exits; here each message is a value, carried with
// the source line the message reports.
module Errors {
  /** The messages TCASM_assembler.c prints before exiting, one per kind. */
  datatype ErrorKind =
    | MustStartWithSection   // "O arquivo fonte deve iniciar com uma diretiva SECTION"
    | InvalidSectionType     // "Os tipos de secao permitidos sao TEXT e DATA"
    | TextAlreadyStarted
    | DataAlreadyStarted
    | BothSectionsStarted
    | InvalidStatement       // "Sentenca invalida"
    | InvalidSymbolStart
    | InvalidSymbol
    | IdentifierTooLong
    | InvalidArrayIndex
    | Redefinition
    | DataWithKeyword
    | MemoryOverflow
    | InvalidArraySize
    | InvalidConstant
    | InvalidInstruction
    | UnexpectedArray        // an array definition where a variable or constant is expected
    | UnexpectedVariable     // a variable definition where an array is expected
    | UnexpectedConstant     // a constant definition where an array is expected
    | UndefinedData
    | InvalidOperand
    | WriteToConstant
    | DivisionByZeroConstant
    | InvalidArrayPosition
    | UndefinedLabel
    | UndefinedVariable
    | UndefinedConstant
    | UndefinedArray
    | CodeOverflow           // the image would pass its 65536 words (not checked by the source)

  /** A failed run: the message kind and the line it names, or the one message without a line. */
  datatype AsmError =
    | NoInstructions         // "Arquivo fonte sem nenhuma instrucao"
    | At(kind: ErrorKind, line: nat)

  /** The outcome of a step of the pass: its result, or the error the run stops with. */
  datatype Result<T> = Ok(value: T) | Err(error: AsmError)
}
