// lib/utils/parseFileName.ts: an older home of the filename parser. Its
// `parseFileName`, `parseFileNames` and `filterValidParsedInfos` carry the
// same code, line for line, as the ones in stlService.ts (its
// `ParsedFileInfo` interface is also the same), so here they are the
// StlService functions under this file's names.

module ParseFileNameUtil {
  import StlService

  /** This copy answers exactly as the stlService parser does, on every name. */
  function ParseFileName(fileName: string): (r: StlService.ParsedFileInfo)
    ensures r == StlService.ParseFileName(fileName)
  {
    StlService.ParseFileName(fileName)
  }

  function ParseFileNames(fileNames: seq<string>): (r: seq<StlService.ParsedFileInfo>)
    ensures r == StlService.ParseFileNames(fileNames)
  {
    StlService.ParseFileNames(fileNames)
  }

  function FilterValidParsedInfos(infos: seq<StlService.ParsedFileInfo>): (r: seq<StlService.ParsedFileInfo>)
    ensures r == StlService.FilterValidParsedInfos(infos)
  {
    StlService.FilterValidParsedInfos(infos)
  }
}
