/** Symbols of the AST and their source positions: the values the index and the searcher work on. */
module Symbols {

  /** A source position. `fileID` is kept beside the pair that the comparison operators look at. */
  datatype Position = Position(fileID: nat, line: nat, column: nat) {

    /** Equality of positions ignores the file. */
    predicate SamePlace(other: Position) {
      line == other.line && column == other.column
    }

    /** The strict order on positions is the lexicographic one on (line, column); it ignores the file. */
    predicate Before(other: Position) {
      line < other.line || (line == other.line && column < other.column)
    }

    predicate AtMost(other: Position) {
      Before(other) || SamePlace(other)
    }
  }

  /**
   * The file a node belongs to, as far as the orders look at it; `isCjmp` says that it is a common or specific file.
   */
  datatype FileInfo = NoFile | File(isCjmp: bool, path: string) {
    predicate InCjmp() {
      File? && isCjmp
    }
  }

  /**
   * A symbol. All fields are fixed at construction except the deletion mark, which the inverted index sets and
   * never clears. The name, scope, kind and positions of a symbol do not change while it is indexed.
   */
  class Symbol {
    const name: string
    const scopeLevel: nat
    const scopeName: string
    const astKind: nat
    const begin: Position
    const end: Position
    const file: FileInfo
    /** The rank of the symbol's address: distinct symbols have distinct addresses. */
    const address: nat
    var invertedIndexBeenDeleted: bool

    constructor (name: string, scopeLevel: nat, scopeName: string, astKind: nat, begin: Position, end: Position,
                 file: FileInfo, address: nat)
      ensures this.name == name && this.scopeLevel == scopeLevel && this.scopeName == scopeName
      ensures this.astKind == astKind && this.begin == begin && this.end == end
      ensures this.file == file && this.address == address
      ensures !invertedIndexBeenDeleted
    {
      this.name, this.scopeLevel, this.scopeName := name, scopeLevel, scopeName;
      this.astKind, this.begin, this.end := astKind, begin, end;
      this.file, this.address := file, address;
      invertedIndexBeenDeleted := false;
    }
  }
}
