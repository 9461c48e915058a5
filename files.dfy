/** The part of the operating system the engine talks to: named files, each
    seen as the sequence of lines a bufio.Scanner yields from it. */
module Files {

  class FileSystem {
    /** path -> lines, without their terminators */
    var files: map<string, seq<string>>

    constructor (files: map<string, seq<string>>)
      ensures this.files == files
    {
      this.files := files;
    }
  }
}
