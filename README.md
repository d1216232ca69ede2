# CLangToLLVM: include-path registration and the declaration report

CLangToLLVM parses one C/C++ source file with clang. It prints, for every top-level function declaration, the declaration's text and, where possible, the LLVM IR type the function type lowers to. This project models the two pieces of that tool that hold sequential logic of their own, and proves what they promise:

- **Include paths** (module `IncludePath`, `include_path.dfy`). The value of the `INCLUDE_PATH` environment variable is split on `;`. Empty pieces are dropped. Every other piece is registered, in order, with the header-search options as a system include directory. `Segments` is the full split, `Registered` is the sequence of paths handed to `AddPath`, and the method `AddIncludePaths` is the loop of `main` itself. It walks the tokens the way a token iterator with submatch `-1` yields them: the text from the current token on is kept, and the loop ends when no text follows the last `;`, so a trailing empty remainder gives no token. Such a token would be empty and skipped anyway. `HeaderSearchOptions` is a class whose `AddPath` appends an entry to its `userEntries`.
- **The report** (module `Report`, `report.dfy`). A function declaration is an abstract `Decl` record. It holds the answers of the compiler queries the visitor makes: the printed text, the name, whether it is templated, whether its function type is convertible, and the printed IR type. The report is written to an `OutputStream`, a class holding the characters written so far. `FunctionASTVisitor.VisitFunctionDecl` makes the same writes in the same order as the source. `CHeaderASTConsumer.HandleTopLevelDecl` is the `for` loop over a declaration group. Both are proved against the pure specification `DeclLines` / `GroupLines`. These give the report as a sequence of `ReportLine`s (a declaration text line, or a signature line), and `RenderAll` turns that sequence into characters.

The visitor class has no fields, so its output for a declaration depends on that declaration alone. `GroupLinesAppend` and `GroupingIrrelevant` state the consequence: the report for any run of declarations is the concatenation of the reports for its parts.

## Model

| member | source | states |
|---|---|---|
| `IncludePath.AddIncludePaths` | CLangToLLVM.cpp:134-143 | the header-search options gain exactly one system, non-framework, sysroot-respecting entry per registered path, in order, after the entries they already had; an empty value adds nothing |
| `IncludePath.HeaderSearchOptions.AddPath` | CLangToLLVM.cpp:141 | an entry with the given path, group and flags is appended and the earlier entries are kept |
| `IncludePath.Segments` | CLangToLLVM.cpp:137-139 | every maximal run between `;` characters, empty runs included, so there is always at least one; the token iterator yields the same runs except the empty run after a final `;`, which would register nothing anyway |
| `IncludePath.SegmentsCount` | CLangToLLVM.cpp:137-139 | a value with n `;` characters has n + 1 segments |
| `IncludePath.Registered` | CLangToLLVM.cpp:137-141 | the arguments handed to `AddPath`, in call order: the non-empty segments; there are at most as many as segments, and each is non-empty and free of `;` |
| `IncludePath.DelimiterIndexFirst` | CLangToLLVM.cpp:137-139 | a token ends at the first `;`: no `;` stands before that position, and the position holds a `;` unless it is the end of the text |
| `IncludePath.SegmentsDelimiterFree` | CLangToLLVM.cpp:137-139 | no piece of the split contains `;` |
| `IncludePath.RegisteredStep` | CLangToLLVM.cpp:138-141 | one iterator step: the token before the first `;` is registered (if non-empty) before everything registered from the text after that `;` |
| `IncludePath.SystemEntriesAt` | CLangToLLVM.cpp:141 | there is one entry per path, and entry `i` holds path `i` in the system group, not a framework, not ignoring the sysroot |
| `IncludePath.RegisteredArePaths` | CLangToLLVM.cpp:137-141 | every registered path is one of the input's segments |
| `IncludePath.RegisteredSingle` | CLangToLLVM.cpp:135-141 | an empty value registers no path; a non-empty value without `;` registers exactly itself |
| `IncludePath.EmptySegmentsIgnored` | CLangToLLVM.cpp:140-141 | a leading `;`, a trailing `;` and a doubled `;` change nothing in what is registered |
| `IncludePath.RegisteredAppend` | CLangToLLVM.cpp:138-142 | the paths of `a;b` are the paths of `a` followed by the paths of `b` |
| `IncludePath.RegisteredJoin` | CLangToLLVM.cpp:138-142 | joining non-empty, `;`-free paths with `;` and registering the result gives back exactly those paths in order |
| `IncludePath.RegisteredContent` | CLangToLLVM.cpp:138-142 | the registered paths written back to back are exactly the input's non-`;` characters in their original order |
| `IncludePath.JoinRegisteredClean` | CLangToLLVM.cpp:138-142 | for a value without empty segments, joining the registered paths with `;` gives back the value |
| `IncludePath.JoinRegisteredNormal` | CLangToLLVM.cpp:138-142 | whenever something is registered, joining the registered paths with `;` gives a text whose segments are exactly those paths (no empty segment is left) and that registers them again |
| `IncludePath.JoinSegments` | CLangToLLVM.cpp:137-139 | joining the segments with `;` gives back the input (split/join round trip) |
| `IncludePath.SegmentsJoin` | CLangToLLVM.cpp:137-139 | splitting the join of a non-empty list of `;`-free pieces gives back that list (join/split round trip) |
| `IncludePath.SegmentsAppend` | CLangToLLVM.cpp:137-139 | the segments of `a;b` are the segments of `a` followed by those of `b` |
| `Report.OutputStream.Write` | CLangToLLVM.cpp:30 | the written characters are appended to what the stream already holds |
| `Report.FunctionASTVisitor.VisitFunctionDecl` | CLangToLLVM.cpp:36-60 | the stream gains exactly the characters written for that declaration (`DeclOutput`, equal to its rendered report lines by `RenderDecl`) and nothing else changes; the result is always `true` |
| `Report.CHeaderASTConsumer.HandleTopLevelDecl` | CLangToLLVM.cpp:70-75 | the stream gains the rendered lines of every declaration of the group, in group order; the result is always `true` |
| `Report.DeclLines` | CLangToLLVM.cpp:45-55 | the report lines for one declaration: its text first; a second line, the signature with its name and IR type, if and only if it is not templated and convertible; never a third |
| `Report.DeclOutput` | CLangToLLVM.cpp:45-55 | the characters written for one declaration start with its text and `\r\n`, and are exactly that much if and only if the declaration is templated or not convertible |
| `Report.GroupLines` | CLangToLLVM.cpp:71-74 | the report lines for a group, each declaration's lines in group order: at least one and at most two per declaration |
| `Report.DeclLinesShape` | CLangToLLVM.cpp:45-55 | a declaration's lines hold exactly one text, its own; its signature is among them if and only if it is lowered; there is at most one signature line |
| `Report.TemplatedTextOnly` | CLangToLLVM.cpp:45-50 | a templated declaration is reported as its text and `\r\n` and nothing more, whether convertible or not |
| `Report.RenderDecl` | CLangToLLVM.cpp:45-55 | the characters the visitor writes for a declaration are its report lines rendered: for a lowered declaration text, `\r\n`, four spaces, name, ` : `, IR type, `\r\n`; for any other one text and `\r\n` only |
| `Report.GroupLinesAppend` | CLangToLLVM.cpp:33-60 | no state carries between declarations: the report of two consecutive runs of declarations is the first's report followed by the second's |
| `Report.DeclAt` | CLangToLLVM.cpp:71-75 | every declaration of a group is reported: its lines stand between those of the declarations before it and those after it |
| `Report.GroupTextsInOrder` | CLangToLLVM.cpp:71-74 | the declaration texts in a group's report are the group's declarations' texts, each once, in input order |
| `Report.GroupSignatures` | CLangToLLVM.cpp:50-55 | the signature lines in a group's report are those of the group's lowered declarations, in input order |
| `Report.GroupLineCount` | CLangToLLVM.cpp:45-55 | a group's report has one line per declaration plus one per lowered declaration |
| `Report.GroupingIrrelevant` | CLangToLLVM.cpp:70-75 | however the declarations are split into groups, the report is that of all the declarations in order |

## Left out

- Compiler set-up (compiler instance, target info, file and source managers, preprocessor, AST context, code generator) and `ParseAST`: these are clang and LLVM library plumbing. `GroupingIrrelevant` only says what calling `HandleTopLevelDecl` once per group gives.
- The clang and LLVM queries `FunctionDecl::print`, `isTemplated`, `CodeGenTypes::isFuncTypeConvertible`, `ConvertType` and `Type::print` are library code. The model takes their answers as fields of `Decl`. Lowering of types itself (parameter counts, ABI expansion) is not modelled.
- `RecursiveASTVisitor::TraverseDecl` is library code. Its descent into nested declarations (namespaces, class members) and its handling of non-function declarations in a group are not modelled. A group is a flat sequence of function declarations, each handed to `VisitFunctionDecl`.
- `OutputStream`: it models the global `raw_os_ostream` over `std::clog` as the characters written in sequence. Buffering and `flush` (CLangToLLVM.cpp:58) are not modelled. Neither is the fact that the early return for templated declarations skips that flush.
- `assert(ft)` (CLangToLLVM.cpp:56) is left out. It only checks that the library's conversion result is present.
- `setLangOpt` (CLangToLLVM.cpp:83-108) only assigns fixed configuration flags.
- The usage check on the argument count (CLangToLLVM.cpp:112-115) is process handling. The `std::getenv` call (CLangToLLVM.cpp:134) is left out too: the model takes `INCLUDE_PATH` as a given string, and the case where the variable is unset, which the source does not handle, is not modelled.
- A missing input file is not modelled. The code has no check for it: the result of `FileMgr.getFile` (CLangToLLVM.cpp:150-151) is used without a null test, so there is no "input not found, exit 1" path to model.
- The comment at CLangToLLVM.cpp:38 speaks of "definitions only". The code never tests for a body, so the model has no body filter.
- `IncludePath.IncludeDirGroup` lists only some of clang's include-directory groups. The tool only ever uses `System`.
